/**
 * The super-admin dashboard page: who may see it, which database requests it
 * makes, and what it shows for the answers those requests return.
 *
 * The signed-in user (as the auth helper returns it) and the answers of the
 * three service-role requests are inputs; the page itself is a pure function
 * of them.
 */
module AdminPage {
  import opened Wrappers

  // ---------------------------------------------------------------------------
  // Access
  // ---------------------------------------------------------------------------

  /** The part of a `users` row the page looks at. */
  datatype Profile = Profile(isSuperAdmin: bool)

  /** The current user: an authenticated user whose profile row may be missing. */
  datatype CurrentUser = CurrentUser(id: string, profile: Option<Profile>)

  datatype Access = ToLogin | ToDashboard | Granted

  /** The two guards at the top of the page, in order. */
  function AccessFor(user: Option<CurrentUser>): (a: Access)
    ensures a == ToLogin <==> user.None?
    ensures a == Granted <==> user.Some? && user.value.profile.Some? && user.value.profile.value.isSuperAdmin
    ensures a == ToDashboard <==> user.Some? && (user.value.profile.None? || !user.value.profile.value.isSuperAdmin)
  {
    match user
    case None => ToLogin
    case Some(u) =>
      match u.profile
      case Some(p) => if p.isSuperAdmin then Granted else ToDashboard
      case None => ToDashboard
  }

  // ---------------------------------------------------------------------------
  // The service-role requests and their answers
  // ---------------------------------------------------------------------------

  datatype Order = Order(column: string, ascending: bool)

  datatype Query =
    | CountRows(table: string)
    | SelectRows(table: string, columns: seq<string>, order: Order, limit: nat)

  const RecentLimit: nat := 10

  const RecentColumns: seq<string> := ["id", "company_name", "industry", "status", "plan", "created_at"]

  /** Exact counts of `clients` and `users`, and the newest clients, newest first. */
  const AdminQueries: seq<Query> := [
    CountRows("clients"),
    CountRows("users"),
    SelectRows("clients", RecentColumns, Order("created_at", false), RecentLimit)
  ]

  /** The selected columns of a `clients` row. */
  datatype ClientRow = ClientRow(id: string, companyName: string, industry: string, status: string, plan: string, createdAt: string)

  /** The three answers; each may come back without data. */
  datatype Answers = Answers(totalCompanies: Option<nat>, totalUsers: Option<nat>, recentCompanies: Option<seq<ClientRow>>)

  // ---------------------------------------------------------------------------
  // What the page shows
  // ---------------------------------------------------------------------------

  /** `count || 0`: a missing count shows as zero. */
  function CountDisplay(count: Option<nat>): (n: nat)
    ensures count.Some? ==> n == count.value
    ensures count.None? ==> n == 0
  {
    count.GetOr(0)
  }

  datatype Stats = Stats(totalCompanies: nat, totalUsers: nat, activePlans: nat, platformStatus: string)

  /** The four stat cards. */
  function StatCards(answers: Answers): (s: Stats)
    ensures s.totalCompanies == CountDisplay(answers.totalCompanies)
    ensures s.totalUsers == CountDisplay(answers.totalUsers)
    ensures s.activePlans == s.totalCompanies
    ensures s.platformStatus == "Online"
  {
    var companies := CountDisplay(answers.totalCompanies);
    Stats(companies, CountDisplay(answers.totalUsers), companies, "Online")
  }

  /** One recent-company row; the creation date is shown unformatted here. */
  datatype RowView = RowView(key: string, title: string, industry: string, status: string, planLine: string, created: string)

  datatype RecentView = Placeholder | Rows(rows: seq<RowView>)

  function RenderRow(c: ClientRow): (v: RowView)
    ensures v.key == c.id && v.title == c.companyName
    ensures v.planLine == c.plan + " plan"
  {
    RowView(c.id, c.companyName, c.industry, c.status, c.plan + " plan", c.createdAt)
  }

  /** The list or the "No companies yet" placeholder. */
  function Recent(recent: Option<seq<ClientRow>>): (v: RecentView)
    ensures v.Placeholder? <==> recent.None? || |recent.value| == 0
    ensures v.Rows? ==> |v.rows| == |recent.value|
    ensures v.Rows? ==> forall k :: 0 <= k < |v.rows| ==> v.rows[k] == RenderRow(recent.value[k])
    ensures v.Rows? ==> forall k :: 0 <= k < |v.rows| ==> v.rows[k].key == recent.value[k].id
  {
    if recent.Some? && |recent.value| > 0 then
      Rows(seq(|recent.value|, k requires 0 <= k < |recent.value| => RenderRow(recent.value[k])))
    else Placeholder
  }

  datatype Dashboard = Dashboard(stats: Stats, recent: RecentView)

  datatype PageResponse = RedirectTo(location: string) | Render(dashboard: Dashboard)

  /** The requests the page made, and what it answered with. */
  datatype PageRun = PageRun(queries: seq<Query>, response: PageResponse)

  /**
   * The page for `user`, where `answers` are what the database would return
   * to the three requests. A redirect ends the page before any request.
   */
  function AdminDashboardPage(user: Option<CurrentUser>, answers: Answers): (r: PageRun)
    ensures r.response == RedirectTo("/login") <==> AccessFor(user) == ToLogin
    ensures r.response == RedirectTo("/dashboard") <==> AccessFor(user) == ToDashboard
    ensures r.response.Render? <==> AccessFor(user) == Granted
    ensures r.queries != [] <==> AccessFor(user) == Granted
    ensures r.queries != [] ==> r.queries == AdminQueries
    ensures r.response.Render? ==> r.response.dashboard == Dashboard(StatCards(answers), Recent(answers.recentCompanies))
  {
    match AccessFor(user)
    case ToLogin => PageRun([], RedirectTo("/login"))
    case ToDashboard => PageRun([], RedirectTo("/dashboard"))
    case Granted => PageRun(AdminQueries, Render(Dashboard(StatCards(answers), Recent(answers.recentCompanies))))
  }

  /** A visitor who is redirected learns nothing from the database: the page does not depend on the answers. */
  lemma RedirectIgnoresAnswers(user: Option<CurrentUser>, a1: Answers, a2: Answers)
    requires AccessFor(user) != Granted
    ensures AdminDashboardPage(user, a1) == AdminDashboardPage(user, a2)
    ensures AdminDashboardPage(user, a1).queries == []
  {
  }

  /** The recent list is newest-first clients, and never longer than the request's limit when the answer honours it. */
  lemma RecentHonoursLimit(user: Option<CurrentUser>, answers: Answers)
    requires AccessFor(user) == Granted
    requires answers.recentCompanies.Some? ==> |answers.recentCompanies.value| <= AdminQueries[2].limit
    ensures AdminQueries[2].table == "clients" && AdminQueries[2].order == Order("created_at", false)
    ensures var d := AdminDashboardPage(user, answers).response.dashboard;
      d.recent.Rows? ==> |d.recent.rows| <= RecentLimit
  {
  }

  /** Each row is keyed by its client's `id`, so distinct clients give distinct keys. */
  lemma RowKeysDistinct(recent: seq<ClientRow>)
    requires forall i, j :: 0 <= i < j < |recent| ==> recent[i].id != recent[j].id
    ensures Recent(Some(recent)).Rows? ==>
      forall i, j :: 0 <= i < j < |recent| ==> Recent(Some(recent)).rows[i].key != Recent(Some(recent)).rows[j].key
  {
  }
}
