/** `ExternalProviders`: the names of the sign-in schemes a user may pick
    (social and OpenID providers). The list is the registered schemes minus
    the local cookie scheme and the external sign-in scheme, computed on first
    use and then served from a cache. */
module ExternalProviders {
  import opened Wrappers

  /** What the scheme provider reports for one registered scheme. */
  datatype AuthenticationScheme = AuthenticationScheme(name: string, displayName: Option<string>)

  /** The LINQ comprehension: the names of the schemes whose name is neither
      excluded one, in registration order. */
  function ProviderNames(schemes: seq<AuthenticationScheme>, cookieScheme: string, externalScheme: string): (r: seq<string>)
    ensures |r| <= |schemes|
    ensures cookieScheme !in r && externalScheme !in r
  {
    if schemes == [] then []
    else
      var name := schemes[|schemes| - 1].name;
      var rest := ProviderNames(schemes[..|schemes| - 1], cookieScheme, externalScheme);
      if name != cookieScheme && name != externalScheme then rest + [name] else rest
  }

  /** Every registered name other than the two excluded ones is listed, and
      nothing else is. */
  lemma {:induction false} ProviderNamesMembers(schemes: seq<AuthenticationScheme>, cookieScheme: string, externalScheme: string, n: string)
    ensures n in ProviderNames(schemes, cookieScheme, externalScheme) <==>
      n != cookieScheme && n != externalScheme && exists i :: 0 <= i < |schemes| && schemes[i].name == n
  {
    if schemes != [] {
      var init := schemes[..|schemes| - 1];
      ProviderNamesMembers(init, cookieScheme, externalScheme, n);
      assert forall i :: 0 <= i < |init| ==> init[i] == schemes[i];
      if exists i :: 0 <= i < |schemes| && schemes[i].name == n {
        var i :| 0 <= i < |schemes| && schemes[i].name == n;
        if i < |init| {
          assert init[i].name == n;
        }
      }
    }
  }

  /** The provider's order is kept: the names of a concatenation are the names
      of its parts, in turn. */
  lemma {:induction false} ProviderNamesAppend(a: seq<AuthenticationScheme>, b: seq<AuthenticationScheme>, cookieScheme: string, externalScheme: string)
    ensures ProviderNames(a + b, cookieScheme, externalScheme) ==
            ProviderNames(a, cookieScheme, externalScheme) + ProviderNames(b, cookieScheme, externalScheme)
  {
    if b == [] {
      assert a + b == a;
    } else {
      var init := b[..|b| - 1];
      ProviderNamesAppend(a, init, cookieScheme, externalScheme);
      assert (a + b)[..|a + b| - 1] == a + init;
      assert (a + b)[|a + b| - 1] == b[|b| - 1];
    }
  }

  class ExternalProviders {
    /** `schemeProvider.GetAllSchemesAsync()`: the registered schemes, in order. */
    const schemes: seq<AuthenticationScheme>
    /** `CookieAuthenticationDefaults.AuthenticationScheme`. */
    const cookieScheme: string
    /** `AuthenticationSchemes.ExternalScheme`. */
    const externalScheme: string
    /** `_providerNames`: the cached result, absent until the first call. */
    var providerNames: Option<seq<string>>
    /** How many times the scheme provider has been asked for its schemes. */
    var schemeQueries: nat

    /** A cached list is the filtered one, and it was computed exactly once. */
    predicate Valid()
      reads this
    {
      && (providerNames.Some? ==> providerNames.value == ProviderNames(schemes, cookieScheme, externalScheme))
      && schemeQueries == (if providerNames.Some? then 1 else 0)
    }

    constructor (schemes: seq<AuthenticationScheme>, cookieScheme: string, externalScheme: string)
      ensures Valid()
      ensures this.schemes == schemes && this.cookieScheme == cookieScheme && this.externalScheme == externalScheme
      ensures providerNames == None && schemeQueries == 0
    {
      this.schemes, this.cookieScheme, this.externalScheme := schemes, cookieScheme, externalScheme;
      providerNames, schemeQueries := None, 0;
    }

    /** `GetProviderNamesAsyncCore`: query the schemes once, `AddRange` the
        filtered names to an empty list. The array is never null. */
    method GetProviderNamesAsyncCore() returns (names: seq<string>)
      modifies this`schemeQueries
      ensures names == ProviderNames(schemes, cookieScheme, externalScheme)
      ensures schemeQueries == old(schemeQueries) + 1
    {
      var list: seq<string> := [];
      schemeQueries := schemeQueries + 1;
      var registered := schemes;
      list := list + ProviderNames(registered, cookieScheme, externalScheme);
      names := list;
    }

    /** `GetProviderNamesAsync`: `_providerNames ??= GetProviderNamesAsyncCore()`.
        The first call computes and stores the list; later calls return the
        stored list without asking the scheme provider again. */
    method GetProviderNamesAsync() returns (names: seq<string>)
      requires Valid()
      modifies this`providerNames, this`schemeQueries
      ensures Valid()
      ensures names == ProviderNames(schemes, cookieScheme, externalScheme)
      ensures providerNames == Some(names)
      ensures schemeQueries == 1
      ensures old(providerNames).Some? ==> unchanged(this)
    {
      if providerNames.None? {
        var computed := GetProviderNamesAsyncCore();
        providerNames := Some(computed);
      }
      names := providerNames.value;
    }
  }

  /** However many callers ask, the schemes are enumerated once and every
      caller sees the same list. */
  method GetProviderNamesTwice(providers: ExternalProviders) returns (first: seq<string>, second: seq<string>)
    requires providers.Valid()
    modifies providers
    ensures first == second
    ensures providers.schemeQueries == 1
    ensures old(providers.providerNames).Some? ==> providers.schemeQueries == old(providers.schemeQueries)
  {
    first := providers.GetProviderNamesAsync();
    second := providers.GetProviderNamesAsync();
  }
}
