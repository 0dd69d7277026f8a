/**
 * The browser-side database client: a factory that builds a client from the
 * public project URL and anonymous key, and a module-level slot that holds
 * the one client the browser shares, created on first use.
 *
 * The two environment values are parameters; the SDK's constructor is
 * modelled as allocating a new client object.
 */
module SupabaseClient {

  /** A client handle; what the SDK keeps inside it is not modelled. */
  class BrowserClient {
    const url: string
    const anonKey: string

    constructor (url: string, anonKey: string)
      ensures this.url == url && this.anonKey == anonKey
    {
      this.url := url;
      this.anonKey := anonKey;
    }
  }

  /**
   * `createClient()`: a new client for the given project. It touches no
   * existing object, so in particular never reads or writes the cached one.
   */
  method CreateClient(url: string, anonKey: string) returns (c: BrowserClient)
    ensures fresh(c)
    ensures c.url == url && c.anonKey == anonKey
  {
    c := new BrowserClient(url, anonKey);
  }

  /**
   * The module's state: the cached `client`, and (for the proof only) how
   * many clients the module has created so far.
   */
  class ClientModule {
    var client: BrowserClient?
    ghost var created: nat

    /** At most one client is ever created, and it is the cached one. */
    ghost predicate Valid()
      reads this
    {
      created <= 1 && (client == null <==> created == 0)
    }

    /** Module load: nothing cached yet. */
    constructor ()
      ensures Valid() && client == null && created == 0
    {
      client := null;
      created := 0;
    }

    /**
     * `getSupabaseClient()`: the cached client, created on the first call
     * only. The result is never null.
     */
    method GetSupabaseClient(url: string, anonKey: string) returns (c: BrowserClient)
      requires Valid()
      modifies this
      ensures Valid()
      ensures client == c
      ensures old(client) != null ==> c == old(client) && created == old(created)
      ensures old(client) == null ==> fresh(c) && c.url == url && c.anonKey == anonKey && created == 1
    {
      if client == null {
        client := CreateClient(url, anonKey);
        created := created + 1;
      }
      c := client;
    }
  }

  /** Two calls in a row give back the same handle, and the second one creates nothing. */
  method CallTwice(m: ClientModule, url: string, anonKey: string) returns (first: BrowserClient, second: BrowserClient)
    requires m.Valid()
    modifies m
    ensures m.Valid() && m.created == 1
    ensures first == second && m.client == first
  {
    first := m.GetSupabaseClient(url, anonKey);
    second := m.GetSupabaseClient(url, anonKey);
  }
}
