/**
 * `coreService.url(account)`: from an account string, with or without an
 * `http://` / `https://` scheme, to the base URL of the core data service.
 */
module CoreService {
  import opened Results
  import opened Js

  /** `/^http(s?):\/\//`: a case-sensitive test anchored at the start. */
  predicate HasHttpScheme(account: string) {
    StartsWith(account, "http://") || StartsWith(account, "https://")
  }

  /** `account.split('://')[0]` when the scheme is present, `'https'` otherwise. */
  function Protocol(account: string): string {
    if HasHttpScheme(account) then SchemeSplit(account); Split(account, "://")[0] else "https"
  }

  /** `account.split('://')[1]` when the scheme is present, the whole account otherwise. */
  function HostPart(account: string): string {
    if HasHttpScheme(account) then SchemeSplit(account); Split(account, "://")[1] else account
  }

  /** `'core'`, extended with `'-service'` unless the host starts with `local`. */
  function Subdomain(host: string): string {
    if StartsWith(host, "local") then "core" else "core" + "-service"
  }

  /** `` `${protocol}://${subdomain}.${url}/v1` ``. */
  function Url(account: string): (url: string)
    ensures |url| >= 3 && url[|url| - 3..] == "/v1"
  {
    var host := HostPart(account);
    Protocol(account) + "://" + Subdomain(host) + "." + host + "/v1"
  }

  /** The first `://` of a string with an http scheme is the one that ends the scheme. */
  lemma FirstSeparator(account: string, scheme: string)
    requires scheme == "http" || scheme == "https"
    requires StartsWith(account, scheme + "://")
    ensures IndexOf(account, "://") == Some(|scheme|)
  {
    SeparatorAfterScheme(account, scheme);
    forall j: nat | j < |scheme|
      ensures !OccursAt(account, "://", j)
    {
      NoSeparatorInScheme(account, scheme, j);
    }
    IndexOfIs(account, "://", |scheme|);
  }

  lemma SeparatorAfterScheme(account: string, scheme: string)
    requires StartsWith(account, scheme + "://")
    ensures OccursAt(account, "://", |scheme|)
  {
    assert account[|scheme|..|scheme| + 3] == (scheme + "://")[|scheme|..|scheme| + 3];
  }

  lemma NoSeparatorInScheme(account: string, scheme: string, j: nat)
    requires scheme == "http" || scheme == "https"
    requires StartsWith(account, scheme + "://") && j < |scheme|
    ensures !OccursAt(account, "://", j)
  {
    assert account[j] == scheme[j] != ':';
    if j + 3 <= |account| {
      assert account[j..j + 3][0] == account[j];
    }
  }

  /** Splitting at `://` a string with an http scheme gives the scheme and at least one more part. */
  lemma SchemeSplit(account: string)
    requires HasHttpScheme(account)
    ensures |Split(account, "://")| >= 2
    ensures Split(account, "://")[0] == (if StartsWith(account, "http://") then "http" else "https")
  {
    var scheme := if StartsWith(account, "http://") then "http" else "https";
    FirstSeparator(account, scheme);
    assert account[..|scheme|] == scheme;
  }

  /** The scheme of an http or https account is kept, and the URL starts with it. */
  lemma SchemeKept(account: string, scheme: string)
    requires scheme == "http" || scheme == "https"
    requires StartsWith(account, scheme + "://")
    ensures Protocol(account) == scheme
    ensures StartsWith(Url(account), scheme + "://")
  {
    ProtocolIsScheme(account, scheme);
    UrlStartsWithProtocol(account);
  }

  lemma ProtocolIsScheme(account: string, scheme: string)
    requires scheme == "http" || scheme == "https"
    requires StartsWith(account, scheme + "://")
    ensures Protocol(account) == scheme
  {
    SchemeSplit(account);
    if scheme == "https" {
      assert account[4] == 's';
      assert !StartsWith(account, "http://");
    }
  }

  lemma UrlStartsWithProtocol(account: string)
    ensures StartsWith(Url(account), Protocol(account) + "://")
  {
    var host := HostPart(account);
    var head := Protocol(account) + "://";
    assert Url(account) == head + (Subdomain(host) + "." + host + "/v1");
  }

  /** Without a scheme the protocol is https and the whole account is the host. */
  lemma BareHost(account: string)
    requires !HasHttpScheme(account)
    ensures Url(account) == "https" + "://" + Subdomain(account) + "." + account + "/v1"
  {
  }

  /** With a scheme the host is the second part of the split, read after the scheme. */
  lemma HostAfterScheme(account: string, scheme: string)
    requires scheme == "http" || scheme == "https"
    requires StartsWith(account, scheme + "://")
    ensures HostPart(account) == Split(account[|scheme| + 3..], "://")[0]
    ensures !Contains(HostPart(account), "://")
  {
    HostIsSecondPart(account, scheme);
    SplitPartsFree(account, "://");
  }

  lemma HostIsSecondPart(account: string, scheme: string)
    requires scheme == "http" || scheme == "https"
    requires StartsWith(account, scheme + "://")
    ensures |Split(account, "://")| >= 2 && HostPart(account) == Split(account, "://")[1]
    ensures HostPart(account) == Split(account[|scheme| + 3..], "://")[0]
  {
    SchemeIsHttp(account, scheme);
    FirstSeparator(account, scheme);
    SplitSecondPart(account, "://", |scheme|);
  }

  lemma SchemeIsHttp(account: string, scheme: string)
    requires scheme == "http" || scheme == "https"
    requires StartsWith(account, scheme + "://")
    ensures HasHttpScheme(account)
  {
    if scheme == "http" {
      assert scheme + "://" == "http://";
    } else {
      assert scheme + "://" == "https://";
    }
  }

  /**
   * With a scheme the host is the text between the first and the second `://`:
   * it holds no `://`, the account is the scheme, `://`, the host and a rest that
   * is empty or starts with a further `://` (which the URL drops).
   */
  lemma HostBetweenSeparators(account: string, scheme: string)
    requires scheme == "http" || scheme == "https"
    requires StartsWith(account, scheme + "://")
    ensures !Contains(HostPart(account), "://")
    ensures StartsWith(account, scheme + "://" + HostPart(account))
    ensures var rest := account[|scheme| + 3 + |HostPart(account)|..];
      rest == [] || StartsWith(rest, "://")
  {
    HostAfterScheme(account, scheme);
    var t := account[|scheme| + 3..];
    SplitFirstPart(t, "://");
    AfterScheme(account, scheme, HostPart(account));
  }

  /** An account with a scheme is the scheme, `://`, and what follows. */
  lemma AfterScheme(account: string, scheme: string, host: string)
    requires StartsWith(account, scheme + "://") && StartsWith(account[|scheme| + 3..], host)
    ensures StartsWith(account, scheme + "://" + host)
    ensures account[|scheme| + 3 + |host|..] == account[|scheme| + 3..][|host|..]
  {
    assert account == scheme + "://" + account[|scheme| + 3..];
  }

  /** The subdomain is `core` exactly when the host starts with `local`, `core-service` otherwise. */
  lemma SubdomainChoice(host: string)
    ensures Subdomain(host) == "core" <==> StartsWith(host, "local")
    ensures !StartsWith(host, "local") ==> Subdomain(host) == "core-service"
  {
  }

  /** The scheme test is case-sensitive: an upper-case `HTTP://` account is taken as a bare host. */
  lemma UpperCaseSchemeIsBareHost(account: string)
    requires StartsWith(account, "HTTP://")
    ensures Url(account) == "https" + "://" + "core-service" + "." + account + "/v1"
  {
    assert account[0] == 'H';
    assert !HasHttpScheme(account);
    assert !StartsWith(account, "local");
    SubdomainChoice(account);
  }
}
