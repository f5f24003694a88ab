/** `user_from_key`: SSH key names begin with the account that owns them, and so do instances. */
module KeyOwnership {
  /** The text before the `n`-th dash: `"-".join(s.split("-")[0:n])`. */
  function UpToDash(s: string, n: nat): string
    requires n > 0
  {
    if s == [] then []
    else if s[0] != '-' then [s[0]] + UpToDash(s[1..], n)
    else if n == 1 then []
    else ['-'] + UpToDash(s[1..], n - 1)
  }

  /** `user_from_key`. */
  function Owner(key: string): string {
    UpToDash(key, if "cs" <= key then 2 else 1)
  }

  function Dashes(s: string): nat {
    if s == [] then 0 else (if s[0] == '-' then 1 else 0) + Dashes(s[1..])
  }

  /** A class account has one dash after its "cs..." part; any other name has none. */
  predicate AccountName(user: string) {
    Dashes(user) == if "cs" <= user then 1 else 0
  }

  predicate KeyOf(user: string, key: string) {
    user + "-" <= key
  }

  lemma {:induction false} BeforeDash(user: string, rest: string)
    ensures UpToDash(user + "-" + rest, Dashes(user) + 1) == user
  {
    var key := user + "-" + rest;
    if user == [] {
      assert key[0] == '-';
    } else {
      assert key[0] == user[0] && key[1..] == user[1..] + "-" + rest;
      BeforeDash(user[1..], rest);
    }
  }

  /** A key that starts with an account name and a dash maps back to that account. */
  lemma KeyMapsToOwner(user: string, key: string)
    requires AccountName(user) && KeyOf(user, key)
    ensures Owner(key) == user
  {
    var rest := key[|user| + 1..];
    assert key == user + "-" + rest;
    BeforeDash(user, rest);
    assert "cs" <= key <==> "cs" <= user by {
      if |user| >= 2 {
        assert key[..2] == user[..2];
      } else {
        assert key[|user|] == '-';
      }
    }
  }

  /** So no key belongs to two accounts. */
  lemma OneOwner(u: string, v: string, key: string)
    requires AccountName(u) && AccountName(v) && KeyOf(u, key) && KeyOf(v, key)
    ensures u == v
  {
    KeyMapsToOwner(u, key);
    KeyMapsToOwner(v, key);
  }

  lemma {:induction false} NoDashLeft(s: string, n: nat)
    requires Dashes(s) < n
    ensures UpToDash(s, n) == s
  {
    if s == [] {
    } else if s[0] == '-' {
      NoDashLeft(s[1..], n - 1);
    } else {
      NoDashLeft(s[1..], n);
    }
  }

  /** An account name is the key of no other account. */
  lemma AccountIsNoKey(u: string, v: string)
    requires AccountName(u) && AccountName(v) && u != v
    ensures !KeyOf(v, u)
  {
    NoDashLeft(u, if "cs" <= u then 2 else 1);
    if KeyOf(v, u) {
      KeyMapsToOwner(v, u);
    }
  }

  /** Some key of account `v` begins with the name of account `u` exactly when `v` itself does. */
  lemma SharedPrefixIff(u: string, v: string)
    requires AccountName(u) && AccountName(v) && u != v
    ensures (exists key :: u <= key && KeyOf(v, key)) <==> u <= v
  {
    if u <= v {
      assert u <= v + "-" && KeyOf(v, v + "-");
    }
    if key :| u <= key && KeyOf(v, key) {
      AccountIsNoKey(u, v);
      OneIsPrefix(u, v + "-", key);
      if u <= v + "-" {
        assert u[..|u|] == (v + "-")[..|u|];
        assert |u| <= |v|;
        assert (v + "-")[..|u|] == v[..|u|];
      }
    }
  }

  lemma OneIsPrefix(a: string, b: string, s: string)
    requires a <= s && b <= s
    ensures a <= b || b <= a
  {
    if |a| <= |b| {
      assert a == s[..|a|] == b[..|a|];
    } else {
      assert b == s[..|b|] == a[..|b|];
    }
  }
}
