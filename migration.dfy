/**
 * The migration runner script: it splits the schema file into statements,
 * sends them one by one to the database, labels the major ones in its
 * progress output, tallies successes and errors, and exits with 1 when
 * anything failed.
 *
 * The database round trip is not modelled: each call's outcome is an input.
 */
module Migration {
  import opened Wrappers
  import opened Text

  // ---------------------------------------------------------------------------
  // Splitting the SQL text into statements
  // ---------------------------------------------------------------------------

  /** The filter's test: a piece survives when it is non-empty and does not start with `--`. */
  predicate Kept(piece: string) {
    |piece| > 0 && !("--" <= piece)
  }

  /** What every element of the statement list looks like. */
  predicate IsStatement(s: string) {
    Kept(s) && IsTrimmed(s) && ';' !in s
  }

  /** The `.map(s => s.trim())` step. */
  function TrimAll(pieces: seq<string>): (r: seq<string>)
    ensures |r| == |pieces|
    ensures forall k :: 0 <= k < |r| ==> r[k] == Trim(pieces[k])
    decreases |pieces|
  {
    if pieces == [] then [] else [Trim(pieces[0])] + TrimAll(pieces[1..])
  }

  /** The `.filter(...)` step, left to right. */
  function FilterKept(pieces: seq<string>): (r: seq<string>)
    ensures |r| <= |pieces|
    ensures forall k :: 0 <= k < |r| ==> Kept(r[k])
    decreases |pieces|
  {
    if pieces == [] then []
    else (if Kept(pieces[0]) then [pieces[0]] else []) + FilterKept(pieces[1..])
  }

  /** `sql.split(';').map(s => s.trim()).filter(s => s.length > 0 && !s.startsWith('--'))` */
  function Statements(sql: string): seq<string> {
    FilterKept(TrimAll(Split(sql, ';')))
  }

  /** `xs` is `ys` with some elements left out, the rest in the same order. */
  predicate IsSubsequence<T(==)>(xs: seq<T>, ys: seq<T>)
    decreases |ys|
  {
    if xs == [] then true
    else if ys == [] then false
    else (xs[0] == ys[0] && IsSubsequence(xs[1..], ys[1..])) || IsSubsequence(xs, ys[1..])
  }

  /**
   * The filter keeps exactly the kept pieces: in their original order, each
   * as often as it occurs, and nothing else.
   */
  lemma {:induction false} FilterKeptSpec(pieces: seq<string>)
    ensures IsSubsequence(FilterKept(pieces), pieces)
    ensures forall c :: multiset(FilterKept(pieces))[c] == if Kept(c) then multiset(pieces)[c] else 0
    decreases |pieces|
  {
    if pieces != [] {
      var head, tail := pieces[0], pieces[1..];
      FilterKeptSpec(tail);
      assert pieces == [head] + tail;
      assert multiset(pieces) == multiset{head} + multiset(tail);
      var rest := FilterKept(tail);
      if Kept(head) {
        var r := [head] + rest;
        assert FilterKept(pieces) == r && r[0] == head && r[1..] == rest;
        assert multiset(r) == multiset{head} + multiset(rest);
      } else {
        assert FilterKept(pieces) == rest;
      }
    }
  }

  /**
   * Every statement is trimmed, non-empty, free of `;` and not a `--`
   * comment, and there are at most as many statements as `;`-pieces.
   */
  lemma StatementsShape(sql: string)
    ensures |Statements(sql)| <= Count(sql, ';') + 1
    ensures forall k :: 0 <= k < |Statements(sql)| ==> IsStatement(Statements(sql)[k])
  {
    var pieces := Split(sql, ';');
    var trimmed := TrimAll(pieces);
    forall j | 0 <= j < |trimmed|
      ensures ';' !in trimmed[j] && IsTrimmed(trimmed[j])
    {
      TrimKeepsOut(pieces[j], ';');
    }
    FilterKeptShape(trimmed);
  }

  /** Filtering trimmed, `;`-free pieces leaves only statements. */
  lemma {:induction false} FilterKeptShape(pieces: seq<string>)
    requires forall j :: 0 <= j < |pieces| ==> ';' !in pieces[j] && IsTrimmed(pieces[j])
    ensures forall k :: 0 <= k < |FilterKept(pieces)| ==> IsStatement(FilterKept(pieces)[k])
    decreases |pieces|
  {
    if pieces != [] {
      FilterKeptShape(pieces[1..]);
    }
  }

  /** Trimming adds no character: a character absent before is absent after. */
  lemma TrimKeepsOut(p: string, c: char)
    requires c !in p
    ensures c !in Trim(p)
  {
    var r := Trim(p);
    TrimStrips(p);
    var i :| StripsAt(p, r, i);
    forall k | 0 <= k < |r|
      ensures r[k] != c
    {
      assert r[k] == p[i + k];
    }
  }

  /** The statements are the kept trimmed pieces, in order and with their multiplicities. */
  lemma StatementsOrder(sql: string)
    ensures IsSubsequence(Statements(sql), TrimAll(Split(sql, ';')))
    ensures forall c :: multiset(Statements(sql))[c] == (if Kept(c) then multiset(TrimAll(Split(sql, ';')))[c] else 0)
  {
    FilterKeptSpec(TrimAll(Split(sql, ';')));
  }

  /**
   * A piece whose trimmed text starts with a `--` comment is dropped whole,
   * together with any SQL on the lines after the comment.
   */
  lemma {:induction false} CommentedPieceDropped(piece: string, rest: string)
    requires ';' !in piece
    requires "--" <= Trim(piece)
    ensures Statements(piece + ";" + rest) == Statements(rest)
  {
    var tail := Split(rest, ';');
    var pieces := Split(piece + ";" + rest, ';');
    SplitPiece(piece, rest);
    assert pieces == [piece] + tail;
    assert pieces[1..] == tail;
    var trimmed := TrimAll(pieces);
    assert trimmed == [Trim(piece)] + TrimAll(tail);
    assert !Kept(Trim(piece));
    assert trimmed[1..] == TrimAll(tail);
    assert FilterKept(trimmed) == FilterKept(TrimAll(tail));
  }

  /** Splitting `piece;rest` for a `;`-free piece puts the piece in front of the pieces of `rest`. */
  lemma SplitPiece(piece: string, rest: string)
    requires ';' !in piece
    ensures Split(piece + ";" + rest, ';') == [piece] + Split(rest, ';')
  {
    assert piece + ";" + rest == piece + ([';'] + rest);
    SplitPrefix(piece, [';'] + rest, ';');
    assert ([';'] + rest)[0] == ';' && ([';'] + rest)[1..] == rest;
    assert Split([';'] + rest, ';') == [[]] + Split(rest, ';');
    assert piece + [] == piece;
  }

  /**
   * In particular, SQL that follows a `--` comment line in the same piece is
   * never sent: a definition preceded by a comment disappears from the run.
   */
  lemma CommentLineSwallowsStatement(comment: string, sql: string, rest: string)
    requires ';' !in comment && ';' !in sql
    requires sql != [] && !IsWhitespace(sql[|sql| - 1])
    ensures Statements("--" + comment + "\n" + sql + ";" + rest) == Statements(rest)
  {
    var piece := "--" + comment + "\n" + sql;
    assert ';' !in piece by {
      assert ';' !in "--" + comment + "\n";
    }
    CommentPieceTrimmed(comment, sql);
    CommentedPieceDropped(piece, rest);
  }

  /** The piece `--comment\nsql` is left as it is by `trim`, so it still starts with `--`. */
  lemma CommentPieceTrimmed(comment: string, sql: string)
    requires sql != [] && !IsWhitespace(sql[|sql| - 1])
    ensures "--" <= Trim("--" + comment + "\n" + sql)
  {
    var piece := "--" + comment + "\n" + sql;
    assert piece[0] == '-' && piece[|piece| - 1] == sql[|sql| - 1];
    assert [] + piece + [] == piece;
    TrimExact([], piece, []);
  }

  // ---------------------------------------------------------------------------
  // One statement: the skip test, the progress label, the database call
  // ---------------------------------------------------------------------------

  /** The skip test applied to each executed statement. */
  predicate Skipped(statement: string) {
    Trim(statement) == ";" || "--" <= Trim(statement)
  }

  /** A statement with its `;` appended back is never skipped. */
  lemma SkipNeverFires(s: string)
    requires IsStatement(s)
    ensures Trim(s + ";") == s + ";"
    ensures !Skipped(s + ";")
  {
    var t := s + ";";
    assert t[0] == s[0] && t[|t| - 1] == ';';
    assert [] + t + [] == t;
    TrimExact([], t, []);
  }

  datatype Kind = Table | Index | Trigger | Function | Policy

  /** Precedence of the labels: the first flag set, in this order, names the statement. */
  function Rank(k: Kind): nat {
    match k
    case Table => 0
    case Index => 1
    case Trigger => 2
    case Function => 3
    case Policy => 4
  }

  datatype Flags = Flags(isTable: bool, isIndex: bool, isTrigger: bool, isFunction: bool, isPolicy: bool)

  /** The five `includes` tests. */
  function FlagsOf(statement: string): Flags {
    Flags(
      Contains(statement, "CREATE TABLE"),
      Contains(statement, "CREATE INDEX"),
      Contains(statement, "CREATE TRIGGER"),
      Contains(statement, "CREATE FUNCTION") || Contains(statement, "CREATE OR REPLACE FUNCTION"),
      Contains(statement, "CREATE POLICY"))
  }

  predicate Has(f: Flags, k: Kind) {
    match k
    case Table => f.isTable
    case Index => f.isIndex
    case Trigger => f.isTrigger
    case Function => f.isFunction
    case Policy => f.isPolicy
  }

  predicate AnyFlag(f: Flags) {
    f.isTable || f.isIndex || f.isTrigger || f.isFunction || f.isPolicy
  }

  /**
   * The label printed for a statement, or None when no progress line is
   * printed. The label is the highest-precedence flag that is set.
   */
  function Label(f: Flags): (r: Option<Kind>)
    ensures r.Some? <==> AnyFlag(f)
    ensures r.Some? ==> Has(f, r.value) && forall k :: Rank(k) < Rank(r.value) ==> !Has(f, k)
  {
    if f.isTable then Some(Table)
    else if f.isIndex then Some(Index)
    else if f.isTrigger then Some(Trigger)
    else if f.isFunction then Some(Function)
    else if f.isPolicy then Some(Policy)
    else None
  }

  /**
   * The progress line `Creating <label>: <name>...`, where `capture` is the
   * regular expression's name capture, if it matched.
   */
  function ProgressLine(statement: string, capture: Option<string>): (r: Option<(Kind, string)>)
    ensures r.Some? <==> AnyFlag(FlagsOf(statement))
    ensures r.Some? ==> Has(FlagsOf(statement), r.value.0)
    ensures r.Some? ==> forall k :: Rank(k) < Rank(r.value.0) ==> !Has(FlagsOf(statement), k)
    ensures r.Some? && capture.Some? ==> r.value.1 == capture.value
    ensures r.Some? && capture.None? ==> r.value.1 == "unknown"
  {
    match Label(FlagsOf(statement))
    case None => None
    case Some(k) => Some((k, capture.GetOr("unknown")))
  }

  /** What the database call did: it returned (with or without an error message) or it threw. */
  datatype RpcOutcome = Returned(error: Option<string>) | Threw(message: string)

  datatype StepResult = Succeeded | Failed(message: string)

  const DirectSqlUnavailable: string :=
    "Direct SQL execution not available via Supabase client. Please run migration via Supabase dashboard."

  /**
   * The try block around the call: an error mentioning `not found` is turned
   * into a thrown error with a fixed message; every error and every throw
   * ends up counted as a failure.
   */
  function Execute(o: RpcOutcome): (r: StepResult)
    ensures r.Succeeded? <==> o == Returned(None)
    ensures o.Returned? && o.error.Some? && Contains(o.error.value, "not found") ==> r == Failed(DirectSqlUnavailable)
    ensures o.Returned? && o.error.Some? && !Contains(o.error.value, "not found") ==> r == Failed(o.error.value)
    ensures o.Threw? ==> r == Failed(o.message)
  {
    match o
    case Returned(None) => Succeeded
    case Returned(Some(m)) => if Contains(m, "not found") then Failed(DirectSqlUnavailable) else Failed(m)
    case Threw(m) => Failed(m)
  }

  // ---------------------------------------------------------------------------
  // The run: tally and exit code
  // ---------------------------------------------------------------------------

  /** Number of calls, among `os`, that returned without an error. */
  function Successes(os: seq<RpcOutcome>): nat
    decreases |os|
  {
    if os == [] then 0
    else Successes(os[..|os| - 1]) + (if os[|os| - 1] == Returned(None) then 1 else 0)
  }

  lemma {:induction false} SuccessesBound(os: seq<RpcOutcome>)
    ensures Successes(os) <= |os|
    ensures Successes(os) == |os| <==> forall k :: 0 <= k < |os| ==> os[k] == Returned(None)
    decreases |os|
  {
    if os != [] {
      var init := os[..|os| - 1];
      SuccessesBound(init);
      assert forall k :: 0 <= k < |init| ==> init[k] == os[k];
    }
  }

  /** `process.exit(errorCount > 0 ? 1 : 0)` at the end of the run. */
  function ExitCode(errorCount: nat): (code: int)
    ensures code == 1 <==> errorCount > 0
    ensures code == 0 <==> errorCount == 0
  {
    if errorCount > 0 then 1 else 0
  }

  /** The run exits with 1 exactly when some statement failed. */
  lemma ExitCodeIffSomeFailure(os: seq<RpcOutcome>)
    ensures Successes(os) <= |os|
    ensures ExitCode(|os| - Successes(os)) == 1 <==> exists k :: 0 <= k < |os| && Execute(os[k]).Failed?
  {
    SuccessesBound(os);
    if Successes(os) == |os| {
      assert ExitCode(|os| - Successes(os)) == 0;
      forall k | 0 <= k < |os| ensures !Execute(os[k]).Failed? {
        assert os[k] == Returned(None);
      }
    } else {
      assert ExitCode(|os| - Successes(os)) == 1;
      var k :| 0 <= k < |os| && os[k] != Returned(None);
      assert Execute(os[k]).Failed?;
    }
  }

  /** An environment variable counts as set when it is present and not empty. */
  predicate Configured(v: Option<string>) {
    v.Some? && v.value != ""
  }

  /** What the run reports for one statement: its progress line, if any, and its result. */
  datatype Step = Step(progress: Option<(Kind, string)>, result: StepResult)

  /**
   * The report for one statement, sent with its `;` put back: `capture` is
   * the name the regular expression captured in it, and `o` the call's outcome.
   */
  function Report(statement: string, capture: Option<string>, o: RpcOutcome): Step {
    Step(ProgressLine(statement + ";", capture), Execute(o))
  }

  /** The reports for the statements in order. */
  function Steps(statements: seq<string>, captures: seq<Option<string>>, os: seq<RpcOutcome>): (r: seq<Step>)
    requires |statements| == |captures| == |os|
    ensures |r| == |os|
    decreases |os|
  {
    if os == [] then []
    else
      var n := |os| - 1;
      Steps(statements[..n], captures[..n], os[..n]) + [Report(statements[n], captures[n], os[n])]
  }

  /** The k-th report belongs to the k-th statement, its name capture and the k-th call. */
  lemma {:induction false} StepsAt(statements: seq<string>, captures: seq<Option<string>>, os: seq<RpcOutcome>, k: nat)
    requires |statements| == |captures| == |os| && k < |os|
    ensures Steps(statements, captures, os)[k] == Report(statements[k], captures[k], os[k])
    decreases |os|
  {
    var n := |os| - 1;
    var prefix := Steps(statements[..n], captures[..n], os[..n]);
    assert Steps(statements, captures, os) == prefix + [Report(statements[n], captures[n], os[n])];
    if k < n {
      StepsAt(statements[..n], captures[..n], os[..n], k);
      assert statements[..n][k] == statements[k] && captures[..n][k] == captures[k] && os[..n][k] == os[k];
    }
  }

  datatype Run = Run(exitCode: int, successCount: nat, errorCount: nat, steps: seq<Step>)

  /**
   * The loop over the statements: `captures[i]` is the name the regular
   * expression captures in the i-th one and `outcomes[i]` what the database
   * did with it. Each statement increments exactly one of the counters.
   */
  method RunStatements(statements: seq<string>, captures: seq<Option<string>>, outcomes: seq<RpcOutcome>)
    returns (successCount: nat, errorCount: nat, steps: seq<Step>)
    requires |outcomes| == |statements| == |captures|
    requires forall k :: 0 <= k < |statements| ==> IsStatement(statements[k])
    ensures successCount == Successes(outcomes)
    ensures successCount + errorCount == |statements|
    ensures steps == Steps(statements, captures, outcomes)
  {
    successCount, errorCount, steps := 0, 0, [];
    for i := 0 to |statements|
      invariant successCount == Successes(outcomes[..i])
      invariant successCount + errorCount == i
      invariant steps == Steps(statements[..i], captures[..i], outcomes[..i])
    {
      var statement := statements[i] + ";";
      assert !Skipped(statement) by {
        SkipNeverFires(statements[i]);
      }
      if Skipped(statement) {
        assert false;
      }
      var progress := ProgressLine(statement, captures[i]);
      var result := Execute(outcomes[i]);
      assert outcomes[..i + 1][..i] == outcomes[..i];
      assert statements[..i + 1][..i] == statements[..i];
      assert captures[..i + 1][..i] == captures[..i];
      if result.Failed? {
        errorCount := errorCount + 1;
      } else {
        successCount := successCount + 1;
      }
      steps := steps + [Step(progress, result)];
    }
    assert outcomes[..|statements|] == outcomes;
    assert statements[..|statements|] == statements;
    assert captures[..|statements|] == captures;
  }

  /**
   * The whole script: `url` and `serviceKey` are the two environment
   * variables, `sql` the migration file's text, `captures[i]` the name
   * captured in the i-th statement and `outcomes[i]` what the database did
   * with it.
   */
  method Migrate(url: Option<string>, serviceKey: Option<string>, sql: string, captures: seq<Option<string>>, outcomes: seq<RpcOutcome>)
    returns (r: Run)
    requires |outcomes| == |captures| == |Statements(sql)|
    ensures !(Configured(url) && Configured(serviceKey)) ==> r == Run(1, 0, 0, [])
    ensures Configured(url) && Configured(serviceKey) ==>
      && r.successCount == Successes(outcomes)
      && r.successCount + r.errorCount == |Statements(sql)|
      && r.exitCode == ExitCode(r.errorCount)
      && r.steps == Steps(Statements(sql), captures, outcomes)
  {
    if !Configured(url) || !Configured(serviceKey) {
      return Run(1, 0, 0, []);
    }
    var statements := Statements(sql);
    StatementsShape(sql);
    var successCount, errorCount, steps := RunStatements(statements, captures, outcomes);
    r := Run(ExitCode(errorCount), successCount, errorCount, steps);
  }
}
