/** The `scan` command's account selection: with no nicknames every stored
    account is scanned; otherwise the stored accounts whose name was given,
    in stored order. An empty selection ends the command with a run-time
    error before any import. The settings persister is replaced by the
    sequence of stored accounts. */
module ScanOptions {

  datatype Account = Account(accountId: string, accountName: string)

  /** The exit code the command sets; RunTimeError is the only one it uses. */
  datatype ExitCode = RunTimeError

  /** Either the command exits with a code, or it goes on to import the
      selected accounts after printing the intro line. */
  datatype ScanOutcome = Exited(code: ExitCode) | Importing(intro: string, accounts: seq<Account>)

  /** `accounts.Where(acct => nicknames.Contains(acct.AccountName))`. */
  function WhereNamed(accounts: seq<Account>, nicknames: seq<string>): (r: seq<Account>)
    ensures forall a :: a in r ==> a in accounts && a.accountName in nicknames
    decreases |accounts|
  {
    if accounts == [] then []
    else (if accounts[0].accountName in nicknames then [accounts[0]] else []) + WhereNamed(accounts[1..], nicknames)
  }

  /** `xs` can be obtained from `ys` by deleting elements. */
  ghost predicate IsSubsequence<T>(xs: seq<T>, ys: seq<T>)
    decreases |ys|
  {
    || xs == []
    || (ys != [] && ((xs[0] == ys[0] && IsSubsequence(xs[1..], ys[1..])) || IsSubsequence(xs, ys[1..])))
  }

  /** The selection keeps stored order. */
  lemma {:induction false} WhereNamedIsSubsequence(accounts: seq<Account>, nicknames: seq<string>)
    ensures IsSubsequence(WhereNamed(accounts, nicknames), accounts)
    decreases |accounts|
  {
    if accounts != [] {
      var r := WhereNamed(accounts, nicknames);
      var rest := WhereNamed(accounts[1..], nicknames);
      WhereNamedIsSubsequence(accounts[1..], nicknames);
      if accounts[0].accountName in nicknames {
        assert r == [accounts[0]] + rest;
        assert r[1..] == rest;
      } else {
        assert r == rest;
      }
    }
  }

  /** The selection holds every stored account whose name was given, as
      many times as it is stored, and no other account. */
  lemma {:induction false} WhereNamedCounts(accounts: seq<Account>, nicknames: seq<string>, a: Account)
    ensures multiset(WhereNamed(accounts, nicknames))[a] ==
      if a.accountName in nicknames then multiset(accounts)[a] else 0
    decreases |accounts|
  {
    if accounts != [] {
      WhereNamedCounts(accounts[1..], nicknames, a);
      assert accounts == [accounts[0]] + accounts[1..];
    }
  }

  /** Nothing is selected exactly when no stored account has a given name. */
  lemma {:induction false} WhereNamedEmpty(accounts: seq<Account>, nicknames: seq<string>)
    ensures WhereNamed(accounts, nicknames) == [] <==>
      forall i :: 0 <= i < |accounts| ==> accounts[i].accountName !in nicknames
    decreases |accounts|
  {
    if accounts != [] {
      WhereNamedEmpty(accounts[1..], nicknames);
      assert forall i :: 1 <= i < |accounts| ==> accounts[i] == accounts[1..][i - 1];
    }
  }

  function Names(accounts: seq<Account>): (r: seq<string>)
    ensures |r| == |accounts|
    ensures forall i :: 0 <= i < |accounts| ==> r[i] == accounts[i].accountName
  {
    seq(|accounts|, i requires 0 <= i < |accounts| => accounts[i].accountName)
  }

  /** `first.Except(second)`: the elements of first that are not in second,
      each once, in order of first occurrence. */
  function Except(first: seq<string>, second: seq<string>): (r: seq<string>)
    ensures Distinct(r)
    ensures forall x :: x in r <==> x in first && x !in second
  {
    var excluded := set x | x in second;
    ExceptFromDistinct(first, excluded);
    assert forall x :: x in ExceptFrom(first, excluded) <==> x in first && x !in second by {
      forall x ensures x in ExceptFrom(first, excluded) <==> x in first && x !in second {
        ExceptFromMembers(first, excluded, x);
      }
    }
    ExceptFrom(first, excluded)
  }

  /** Except's loop: `excluded` starts as the set of second and grows with
      every element yielded. */
  function ExceptFrom(xs: seq<string>, excluded: set<string>): (r: seq<string>)
    ensures |r| <= |xs|
    ensures forall x :: x in r ==> x in xs && x !in excluded
    decreases |xs|
  {
    if xs == [] then []
    else if xs[0] in excluded then ExceptFrom(xs[1..], excluded)
    else [xs[0]] + ExceptFrom(xs[1..], excluded + {xs[0]})
  }

  lemma {:induction false} ExceptFromMembers(xs: seq<string>, excluded: set<string>, x: string)
    ensures x in ExceptFrom(xs, excluded) <==> x in xs && x !in excluded
    decreases |xs|
  {
    if xs != [] {
      ExceptFromMembers(xs[1..], excluded, x);
      ExceptFromMembers(xs[1..], excluded + {xs[0]}, x);
      assert x in xs <==> x == xs[0] || x in xs[1..];
    }
  }

  predicate Distinct(xs: seq<string>) {
    forall i, j :: 0 <= i < j < |xs| ==> xs[i] != xs[j]
  }

  lemma {:induction false} ExceptFromDistinct(xs: seq<string>, excluded: set<string>)
    ensures Distinct(ExceptFrom(xs, excluded))
    decreases |xs|
  {
    if xs != [] {
      if xs[0] in excluded {
        ExceptFromDistinct(xs[1..], excluded);
      } else {
        var rest := ExceptFrom(xs[1..], excluded + {xs[0]});
        ExceptFromDistinct(xs[1..], excluded + {xs[0]});
        ExceptFromMembers(xs[1..], excluded + {xs[0]}, xs[0]);
        assert xs[0] !in rest;
      }
    }
  }

  /** getAccounts: every stored account when no nickname is given,
      otherwise the stored accounts named by a nickname. */
  function GetAccounts(stored: seq<Account>, nicknames: seq<string>): (found: seq<Account>)
    ensures nicknames == [] ==> found == stored
    ensures nicknames != [] ==> forall a :: a in found <==> a in stored && a.accountName in nicknames
  {
    if nicknames == [] then stored
    else
      var found := WhereNamed(stored, nicknames);
      assert forall a :: a in stored && a.accountName in nicknames ==> a in found by {
        forall a | a in stored && a.accountName in nicknames ensures a in found {
          WhereNamedCounts(stored, nicknames, a);
        }
      }
      found
  }

  /** With nicknames given, getAccounts keeps the named stored accounts in
      stored order, each as often as it is stored, and nothing else. */
  lemma GetAccountsSelectsInStoredOrder(stored: seq<Account>, nicknames: seq<string>)
    requires nicknames != []
    ensures IsSubsequence(GetAccounts(stored, nicknames), stored)
    ensures forall a ::
              multiset(GetAccounts(stored, nicknames))[a] == if a.accountName in nicknames then multiset(stored)[a] else 0
  {
    WhereNamedIsSubsequence(stored, nicknames);
    forall a ensures multiset(GetAccounts(stored, nicknames))[a] ==
      if a.accountName in nicknames then multiset(stored)[a] else 0
    {
      WhereNamedCounts(stored, nicknames, a);
    }
  }

  /** The nicknames getAccounts reports as not found. */
  function NotFound(stored: seq<Account>, nicknames: seq<string>): (r: seq<string>)
    ensures |r| <= |nicknames|
    ensures forall x :: x in r ==> x in nicknames && forall a :: a in WhereNamed(stored, nicknames) ==> a.accountName != x
  {
    var names := Names(WhereNamed(stored, nicknames));
    assert forall a :: a in WhereNamed(stored, nicknames) ==> a.accountName in names by {
      forall a | a in WhereNamed(stored, nicknames) ensures a.accountName in names {
        var j :| 0 <= j < |WhereNamed(stored, nicknames)| && WhereNamed(stored, nicknames)[j] == a;
        assert names[j] == a.accountName;
      }
    }
    Except(nicknames, names)
  }

  /** The not-found list holds each given nickname that names no stored
      account, once; it shares no name with the selection. */
  lemma NotFoundIsExactlyTheUnmatched(stored: seq<Account>, nicknames: seq<string>)
    ensures Distinct(NotFound(stored, nicknames))
    ensures forall x :: x in NotFound(stored, nicknames) <==>
      x in nicknames && forall i :: 0 <= i < |stored| ==> stored[i].accountName != x
    ensures forall a :: a in WhereNamed(stored, nicknames) ==> a.accountName !in NotFound(stored, nicknames)
  {
    var found := WhereNamed(stored, nicknames);
    var names := Names(found);
    var excluded := set x | x in names;
    ExceptFromDistinct(nicknames, excluded);
    forall x ensures x in NotFound(stored, nicknames) <==>
      x in nicknames && forall i :: 0 <= i < |stored| ==> stored[i].accountName != x
    {
      ExceptFromMembers(nicknames, excluded, x);
      if x in nicknames {
        if x in names {
          var j :| 0 <= j < |names| && names[j] == x;
          assert found[j] in stored;
        } else {
          forall i | 0 <= i < |stored| ensures stored[i].accountName != x {
            WhereNamedCounts(stored, nicknames, stored[i]);
          }
        }
      }
    }
    forall a | a in found ensures a.accountName !in NotFound(stored, nicknames) {
      var j :| 0 <= j < |found| && found[j] == a;
      assert names[j] == a.accountName;
      ExceptFromMembers(nicknames, excluded, a.accountName);
    }
  }

  /** The decimal rendering of a count, as string interpolation prints it. */
  function NatToString(n: nat): (s: string)
    ensures |s| >= 1
    ensures forall i :: 0 <= i < |s| ==> '0' <= s[i] <= '9'
    ensures n >= 10 ==> s[0] != '0'
    decreases n
  {
    if n < 10 then [Digit(n)] else NatToString(n / 10) + [Digit(n % 10)]
  }

  function Digit(d: nat): (c: char)
    requires d < 10
    ensures '0' <= c <= '9' && c as int - '0' as int == d
  {
    ('0' as int + d) as char
  }

  /** Reads back a string of decimal digits. */
  function ParseDecimal(s: string): nat
    requires forall i :: 0 <= i < |s| ==> '0' <= s[i] <= '9'
    decreases |s|
  {
    if s == [] then 0 else ParseDecimal(s[..|s| - 1]) * 10 + (s[|s| - 1] as int - '0' as int)
  }

  /** The count printed in the intro reads back as the count. */
  lemma {:induction false} NatToStringRoundTrip(n: nat)
    ensures ParseDecimal(NatToString(n)) == n
    decreases n
  {
    var s := NatToString(n);
    if n >= 10 {
      NatToStringRoundTrip(n / 10);
      assert s[..|s| - 1] == NatToString(n / 10);
    }
  }

  const SingleAccountIntro := "Scanning Audible library. This may take a few minutes."

  function ManyAccountsIntro(count: nat): string {
    "Scanning Audible library: " + NatToString(count) + " accounts. This may take a few minutes per account."
  }

  /** ProcessAsync up to the import: no selected account exits with a
      run-time error; otherwise the intro names the account count unless
      there is exactly one. */
  function ProcessScan(stored: seq<Account>, nicknames: seq<string>): (r: ScanOutcome)
    ensures r.Exited? <==> GetAccounts(stored, nicknames) == []
    ensures r.Exited? ==> r.code == RunTimeError
    ensures r.Importing? ==> r.accounts == GetAccounts(stored, nicknames)
    ensures r.Importing? ==> (r.intro == SingleAccountIntro <==> |r.accounts| == 1)
    ensures r.Importing? && |r.accounts| != 1 ==> r.intro == ManyAccountsIntro(|r.accounts|)
  {
    var accounts := GetAccounts(stored, nicknames);
    if accounts == [] then Exited(RunTimeError)
    else
      var intro := if |accounts| == 1 then SingleAccountIntro else ManyAccountsIntro(|accounts|);
      assert ManyAccountsIntro(|accounts|)[24] == ':' != SingleAccountIntro[24];
      Importing(intro, accounts)
  }

  /** The command exits before importing exactly when no stored account is
      selected: none stored when no nickname is given, none of the given
      names stored otherwise. */
  lemma ScanExitsIffNothingSelected(stored: seq<Account>, nicknames: seq<string>)
    ensures ProcessScan(stored, nicknames).Exited? <==>
      if nicknames == [] then stored == []
      else forall i :: 0 <= i < |stored| ==> stored[i].accountName !in nicknames
  {
    WhereNamedEmpty(stored, nicknames);
  }
}
