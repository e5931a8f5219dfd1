/** An account as the account store hands it over, and the pure logic on accounts. */
module Accounts {
  import opened Wrappers

  /** JavaScript truthiness of the issuer: present and not the empty string. */
  predicate HasIssuer(issuer: Option<string>) {
    issuer.Some? && issuer.value != ""
  }

  /**
   * The display label: `issuer(name)` when there is an issuer, the bare name
   * otherwise. It depends only on fields that never change, so every
   * recomputation gives the same label.
   */
  function Label(name: string, issuer: Option<string>): (r: string)
    ensures r == name <==> !HasIssuer(issuer)
    ensures HasIssuer(issuer) ==>
      var n := |issuer.value|;
      |r| == n + |name| + 2 && r[..n] == issuer.value && r[n] == '('
      && r[n + 1..|r| - 1] == name && r[|r| - 1] == ')'
  {
    if HasIssuer(issuer) then issuer.value + "(" + name + ")" else name
  }

  /**
   * One stored account. `name`, `issuer` and the secret are never written;
   * `totp` and `nameWithIssuer` (the display label) are written in place
   * by the account's refresh callback and are absent until its first run.
   */
  class Account {
    const name: string
    const issuer: Option<string>
    const secret: string
    var totp: Option<string>
    var nameWithIssuer: Option<string>

    constructor (name: string, issuer: Option<string>, secret: string)
      ensures this.name == name && this.issuer == issuer && this.secret == secret
      ensures totp == None && nameWithIssuer == None
    {
      this.name, this.issuer, this.secret := name, issuer, secret;
      totp, nameWithIssuer := None, None;
    }

    /** The body of the refresh callback: publish the label and the new code. */
    method Publish(code: string)
      modifies this
      ensures nameWithIssuer == Some(Label(name, issuer))
      ensures totp == Some(code)
    {
      nameWithIssuer := Some(Label(name, issuer));
      totp := Some(code);
    }
  }

  /** The accounts whose name is exactly `app`, in their original order. */
  function FilterByName(s: seq<Account>, app: string): (r: seq<Account>)
    ensures |r| <= |s|
    ensures forall i :: 0 <= i < |r| ==> r[i] in s && r[i].name == app
    ensures forall i :: 0 <= i < |s| && s[i].name == app ==> s[i] in r
  {
    if s == [] then []
    else (if s[0].name == app then [s[0]] else []) + FilterByName(s[1..], app)
  }

  /** Filtering distributes over concatenation: it keeps the relative order. */
  lemma {:induction false} FilterByNameAppend(s: seq<Account>, t: seq<Account>, app: string)
    ensures FilterByName(s + t, app) == FilterByName(s, app) + FilterByName(t, app)
  {
    if s == [] {
      assert s + t == t;
    } else {
      assert (s + t)[1..] == s[1..] + t;
      FilterByNameAppend(s[1..], t, app);
    }
  }

  /** The first element kept is the account at the lowest index with that name. */
  lemma {:induction false} FilterByNameFirst(s: seq<Account>, app: string, i: nat)
    requires i < |s| && s[i].name == app
    requires forall j :: 0 <= j < i ==> s[j].name != app
    ensures |FilterByName(s, app)| > 0 && FilterByName(s, app)[0] == s[i]
  {
    if i > 0 {
      FilterByNameFirst(s[1..], app, i - 1);
    }
  }

  /**
   * The account a single-service query reports: the first one named `app`,
   * or None when there is none.
   */
  function SelectFirst(s: seq<Account>, app: string): (r: Option<Account>)
    ensures r.None? <==> forall i :: 0 <= i < |s| ==> s[i].name != app
    ensures r.Some? ==> r.value.name == app && exists i :: (0 <= i < |s| && s[i] == r.value
      && forall j :: 0 <= j < i ==> s[j].name != app)
  {
    var m := FilterByName(s, app);
    if |m| == 0 then
      assert forall i :: 0 <= i < |s| ==> s[i].name != app by {
        forall i | 0 <= i < |s| ensures s[i].name != app {
          assert s[i] in s;
        }
      }
      None
    else
      assert m[0] in m;
      var i := FirstIndexOf(s, app);
      FilterByNameFirst(s, app, i);
      Some(m[0])
  }

  /** The lowest index of an account named `app`. */
  function FirstIndexOf(s: seq<Account>, app: string): (i: nat)
    requires exists k :: 0 <= k < |s| && s[k].name == app
    ensures i < |s| && s[i].name == app
    ensures forall j :: 0 <= j < i ==> s[j].name != app
  {
    if s[0].name == app then 0
    else
      assert exists k :: 0 <= k < |s[1..]| && s[1..][k].name == app by {
        var k :| 0 <= k < |s| && s[k].name == app;
        assert s[1..][k - 1] == s[k];
      }
      1 + FirstIndexOf(s[1..], app)
  }
}
