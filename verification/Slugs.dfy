/** Short names for shared accounts (panel/handlers.go): shell-safe, distinct, and the same whatever the order. */
module Slugs {
  import opened Wrappers
  import opened Strings
  import opened Panel

  // ------------------------------------------------------------ one name

  const FALLBACK := "account"

  predicate IsWordChar(c: char) {
    'a' <= c <= 'z' || '0' <= c <= '9'
  }

  /** Letters and digits stay, blanks and dashes become dashes, the rest goes. */
  function Squeezed(s: string): (r: string)
    ensures forall c <- r :: IsWordChar(c) || c == '-'
  {
    if s == "" then ""
    else
      var c := s[0];
      var rest := Squeezed(s[1..]);
      if IsWordChar(c) then [c] + rest
      else if c == ' ' || c == '-' || c == '_' then ['-'] + rest
      else rest
  }

  function TrimDashesLeft(s: string): (r: string)
    ensures r == "" || r[0] != '-'
    ensures forall c <- r :: c in s
  {
    if s != "" && s[0] == '-' then TrimDashesLeft(s[1..]) else s
  }

  function TrimDashesRight(s: string): (r: string)
    ensures r <= s && (r == "" || r[|r| - 1] != '-')
  {
    if s != "" && s[|s| - 1] == '-' then TrimDashesRight(s[..|s| - 1]) else s
  }

  /** Safe to type: letters, digits and dashes, beginning and ending in none. */
  predicate ShellSafe(s: string) {
    s != "" && s[0] != '-' && s[|s| - 1] != '-' && forall i :: 0 <= i < |s| ==> IsWordChar(s[i]) || s[i] == '-'
  }

  function Slugify(name: string): (r: string)
    ensures ShellSafe(r)
  {
    var out := TrimDashesRight(TrimDashesLeft(Squeezed(Lower(name))));
    if out != "" then out else FALLBACK
  }

  function IndexOf(s: string, c: char): (i: nat)
    ensures i <= |s| && (i < |s| ==> s[i] == c)
  {
    if s == "" || s[0] == c then 0 else 1 + IndexOf(s[1..], c)
  }

  /** A login named by its email is called by the part before the @. */
  function ShareSlug(name: string): (r: string)
    ensures ShellSafe(r)
  {
    var at := IndexOf(name, '@');
    if 0 < at < |name| && Slugify(name[..at]) != FALLBACK then Slugify(name[..at]) else Slugify(name)
  }

  // ------------------------------------------------------------ a free name

  function Digit(n: nat): char
    requires n < 10
  {
    '0' + n as char
  }

  function Decimal(n: nat): (r: string)
    ensures r != "" && forall i :: 0 <= i < |r| ==> '0' <= r[i] <= '9'
  {
    if n < 10 then [Digit(n)] else Decimal(n / 10) + [Digit(n % 10)]
  }

  lemma {:induction false} DecimalIsInjective(m: nat, n: nat)
    requires Decimal(m) == Decimal(n)
    ensures m == n
    decreases m
  {
    var a, b := Decimal(m), Decimal(n);
    assert a[|a| - 1] == Digit(m % 10) && b[|b| - 1] == Digit(n % 10);
    if m >= 10 && n >= 10 {
      assert a[..|a| - 1] == Decimal(m / 10) && b[..|b| - 1] == Decimal(n / 10);
      DecimalIsInjective(m / 10, n / 10);
    }
  }

  /** The n-th name tried for a base. */
  function Candidate(base: string, n: nat): string {
    if n < 2 then base else base + "-" + Decimal(n)
  }

  lemma CandidatesDiffer(base: string, m: nat, n: nat)
    requires 1 <= m && 1 <= n && Candidate(base, m) == Candidate(base, n)
    ensures m == n
  {
    if m >= 2 && n >= 2 {
      var k := |base| + 1;
      assert Candidate(base, m)[k..] == Decimal(m) && Candidate(base, n)[k..] == Decimal(n);
      DecimalIsInjective(m, n);
    }
  }

  function Tried(base: string, n: nat): set<string> {
    set k | 1 <= k < n :: Candidate(base, k)
  }

  /** A taken candidate that was not tried yet leaves fewer to try: there are finitely many taken names. */
  lemma Pigeonhole(base: string, taken: set<string>, n: nat)
    requires 1 <= n && Candidate(base, n) in taken
    ensures |taken - Tried(base, n + 1)| < |taken - Tried(base, n)|
  {
    var c := Candidate(base, n);
    assert c !in Tried(base, n) by {
      if c in Tried(base, n) {
        var k :| 1 <= k < n && Candidate(base, k) == c;
        CandidatesDiffer(base, k, n);
      }
    }
    assert Tried(base, n + 1) == Tried(base, n) + {c};
    assert taken - Tried(base, n + 1) == (taken - Tried(base, n)) - {c};
  }

  /** The first candidate from the n-th on that is not taken. */
  function FirstFree(base: string, taken: set<string>, n: nat): (r: string)
    requires 1 <= n
    ensures r !in taken
    ensures exists k :: k >= n && r == Candidate(base, k) && forall j :: n <= j < k ==> Candidate(base, j) in taken
    decreases |taken - Tried(base, n)|
  {
    if Candidate(base, n) !in taken then Candidate(base, n)
    else
      Pigeonhole(base, taken, n);
      FirstFree(base, taken, n + 1)
  }

  // ------------------------------------------------------------ everyone's names

  /** Lexicographic order on bytes. */
  predicate Below(a: string, b: string) {
    a == "" || (b != "" && (a[0] < b[0] || (a[0] == b[0] && Below(a[1..], b[1..]))))
  }

  function Insert(s: seq<string>, x: string): (r: seq<string>) {
    if s == [] then [x] else if Below(x, s[0]) then [x] + s else [s[0]] + Insert(s[1..], x)
  }

  /** The sorted list; which algorithm sorts does not matter, as `SortedIsUnique` shows. */
  function Sort(s: seq<string>): seq<string> {
    if s == [] then [] else Insert(Sort(s[1..]), s[0])
  }

  function IdsOf(shares: seq<Share>, personId: string): seq<string> {
    if shares == [] then []
    else
      var n := |shares| - 1;
      var rest := IdsOf(shares[..n], personId);
      if shares[n].personId == personId then rest + [shares[n].accountId] else rest
  }

  datatype Naming = Naming(out: map<string, string>, taken: set<string>)

  function NameNext(s: Naming, accounts: seq<Account>, id: string): Naming {
    var i := FindAccount(accounts, id);
    if i < 0 then s
    else
      var slug := FirstFree(ShareSlug(accounts[i].name), s.taken, 1);
      Naming(s.out[id := slug], s.taken + {slug})
  }

  function NameAll(accounts: seq<Account>, ids: seq<string>): Naming {
    if ids == [] then Naming(map[], {})
    else NameNext(NameAll(accounts, ids[..|ids| - 1]), accounts, ids[|ids| - 1])
  }

  function SlugsOf(d: Data, personId: string): map<string, string> {
    NameAll(d.accounts, Sort(IdsOf(d.shares, personId))).out
  }

  method ShareSlugs(d: Data, personId: string) returns (out: map<string, string>)
    ensures out == SlugsOf(d, personId)
  {
    var ids: seq<string> := [];
    var i := 0;
    while i < |d.shares|
      invariant 0 <= i <= |d.shares| && ids == IdsOf(d.shares[..i], personId)
    {
      assert d.shares[..i + 1][..i] == d.shares[..i];
      if d.shares[i].personId == personId {
        ids := ids + [d.shares[i].accountId];
      }
      i := i + 1;
    }
    assert d.shares[..|d.shares|] == d.shares;
    ids := Sort(ids);
    out := map[];
    var taken: set<string> := {};
    i := 0;
    while i < |ids|
      invariant 0 <= i <= |ids| && Naming(out, taken) == NameAll(d.accounts, ids[..i])
    {
      assert ids[..i + 1][..i] == ids[..i];
      var at := FindAccount(d.accounts, ids[i]);
      if at >= 0 {
        var slug := FreeSlug(ShareSlug(d.accounts[at].name), taken);
        taken := taken + {slug};
        out := out[ids[i] := slug];
      }
      i := i + 1;
    }
    assert ids[..|ids|] == ids;
  }

  /** The inner loop: a repeat gets -2, -3 and so on. */
  method FreeSlug(base: string, taken: set<string>) returns (slug: string)
    ensures slug == FirstFree(base, taken, 1)
  {
    slug := base;
    var n := 2;
    while slug in taken
      invariant n >= 2 && slug == Candidate(base, n - 1)
      invariant FirstFree(base, taken, 1) == FirstFree(base, taken, n - 1)
      decreases |taken - Tried(base, n - 1)|
    {
      Pigeonhole(base, taken, n - 1);
      slug := base + "-" + Decimal(n);
      n := n + 1;
    }
  }

  // ------------------------------------------------------------ what they promise

  /** Every account found gets a name, no two the same one, each safe to type. */
  lemma {:induction false} NamesAreDistinct(accounts: seq<Account>, ids: seq<string>)
    ensures var s := NameAll(accounts, ids);
            && (forall id :: id in s.out <==> id in ids && FindAccount(accounts, id) >= 0)
            && (forall id <- s.out :: s.out[id] in s.taken && ShellSafe(s.out[id]))
            && (forall a <- s.out, b <- s.out :: s.out[a] == s.out[b] ==> a == b)
    decreases |ids|
  {
    if ids != [] {
      var n := |ids| - 1;
      assert ids == ids[..n] + [ids[n]];
      NamesAreDistinct(accounts, ids[..n]);
      var i := FindAccount(accounts, ids[n]);
      if i >= 0 {
        var base := ShareSlug(accounts[i].name);
        var s := NameAll(accounts, ids[..n]);
        var k :| k >= 1 && FirstFree(base, s.taken, 1) == Candidate(base, k);
        CandidatesAreSafe(base, k);
      }
    }
  }

  lemma CandidatesAreSafe(base: string, k: nat)
    requires ShellSafe(base)
    ensures ShellSafe(Candidate(base, k))
  {
    if k >= 2 {
      var c, d := Candidate(base, k), Decimal(k);
      assert c[0] == base[0] && c[|c| - 1] == d[|d| - 1];
      forall i | 0 <= i < |c| ensures IsWordChar(c[i]) || c[i] == '-' {
        if i > |base| {
          assert c[i] == d[i - |base| - 1];
        } else if i < |base| {
          assert c[i] == base[i];
        }
      }
    }
  }

  lemma {:induction false} BelowIsTotal(a: string, b: string)
    ensures Below(a, b) || Below(b, a)
    ensures Below(a, b) && Below(b, a) ==> a == b
    decreases |a|
  {
    if a != "" && b != "" && a[0] == b[0] {
      BelowIsTotal(a[1..], b[1..]);
      assert a == [a[0]] + a[1..] && b == [b[0]] + b[1..];
    }
  }

  lemma {:induction false} BelowIsTransitive(a: string, b: string, c: string)
    requires Below(a, b) && Below(b, c)
    ensures Below(a, c)
    decreases |a|
  {
    if a != "" && a[0] == b[0] && b[0] == c[0] {
      BelowIsTransitive(a[1..], b[1..], c[1..]);
    }
  }

  ghost predicate Ordered(s: seq<string>) {
    forall i, j :: 0 <= i < j < |s| ==> Below(s[i], s[j])
  }

  lemma {:induction false} InsertKeepsOrder(s: seq<string>, x: string)
    requires Ordered(s)
    ensures Ordered(Insert(s, x)) && multiset(Insert(s, x)) == multiset(s) + multiset{x}
    decreases |s|
  {
    if s == [] {
    } else if Below(x, s[0]) {
      forall j | 0 <= j < |s| ensures Below(x, s[j]) {
        if j > 0 {
          BelowIsTransitive(x, s[0], s[j]);
        }
      }
    } else {
      assert s == [s[0]] + s[1..];
      InsertKeepsOrder(s[1..], x);
      BelowIsTotal(x, s[0]);
      var r := Insert(s[1..], x);
      forall y <- r ensures Below(s[0], y) {
        assert y in multiset(r);
        assert y in multiset(s[1..]) || y == x;
        if y in s[1..] {
          var j :| 0 <= j < |s[1..]| && s[1..][j] == y;
          assert s[j + 1] == y;
        }
      }
    }
  }

  lemma {:induction false} SortOrders(s: seq<string>)
    ensures Ordered(Sort(s)) && multiset(Sort(s)) == multiset(s)
    decreases |s|
  {
    if s != [] {
      assert s == [s[0]] + s[1..];
      SortOrders(s[1..]);
      InsertKeepsOrder(Sort(s[1..]), s[0]);
    }
  }

  /** Two ordered lists of the same names are the same list. */
  lemma {:induction false} SortedIsUnique(a: seq<string>, b: seq<string>)
    requires Ordered(a) && Ordered(b) && multiset(a) == multiset(b)
    ensures a == b
    decreases |a|
  {
    hide Below;
    assert |a| == |multiset(a)| == |multiset(b)| == |b|;
    if a != [] {
      OrderedHeadsAgree(a, b);
      assert a == [a[0]] + a[1..] && b == [b[0]] + b[1..];
      assert multiset(a[1..]) == multiset(a) - multiset{a[0]} && multiset(b[1..]) == multiset(b) - multiset{b[0]};
      SortedIsUnique(a[1..], b[1..]);
    }
  }

  lemma OrderedHeadsAgree(a: seq<string>, b: seq<string>)
    requires Ordered(a) && Ordered(b) && multiset(a) == multiset(b) && a != [] && b != []
    ensures a[0] == b[0]
  {
    hide Below;
    assert a[0] in multiset(a) && a[0] in multiset(b);
    var j :| 0 <= j < |b| && b[j] == a[0];
    assert b[0] in multiset(b) && b[0] in multiset(a);
    var i :| 0 <= i < |a| && a[i] == b[0];
    BelowIsTotal(a[0], b[0]);
  }

  lemma {:induction false} IdsArePermuted(shares: seq<Share>, personId: string, i: nat)
    requires i < |shares|
    ensures multiset(IdsOf(shares, personId)) ==
            multiset(IdsOf(shares[..i] + shares[i + 1..], personId))
            + (if shares[i].personId == personId then multiset{shares[i].accountId} else multiset{})
    decreases |shares|
  {
    hide IdsOf;
    var n := |shares| - 1;
    LastId(shares, personId);
    if i == n {
      assert shares[..i] + shares[i + 1..] == shares[..n];
    } else {
      IdsArePermuted(shares[..n], personId, i);
      var less := shares[..i] + shares[i + 1..];
      assert less[..|less| - 1] == shares[..n][..i] + shares[..n][i + 1..];
      assert less[|less| - 1] == shares[n];
      LastId(less, personId);
    }
  }

  lemma LastId(shares: seq<Share>, personId: string)
    requires shares != []
    ensures var n := |shares| - 1;
            multiset(IdsOf(shares, personId)) ==
            multiset(IdsOf(shares[..n], personId)) + (if shares[n].personId == personId then multiset{shares[n].accountId} else multiset{})
  {
  }

  lemma {:induction false} SameSharesSameIds(a: seq<Share>, b: seq<Share>, personId: string)
    requires multiset(a) == multiset(b)
    ensures multiset(IdsOf(a, personId)) == multiset(IdsOf(b, personId))
    decreases |a|
  {
    assert |a| == |multiset(a)| == |multiset(b)| == |b|;
    if a != [] {
      var n := |a| - 1;
      assert a == a[..n] + [a[n]];
      assert a[n] in multiset(b);
      var i :| 0 <= i < |b| && b[i] == a[n];
      var less := b[..i] + b[i + 1..];
      assert b == b[..i] + [b[i]] + b[i + 1..];
      assert multiset(less) == multiset(b) - multiset{b[i]};
      assert multiset(a[..n]) == multiset(a) - multiset{a[n]};
      SameSharesSameIds(a[..n], less, personId);
      IdsArePermuted(b, personId, i);
    }
  }

  /**
    Every account shared with a person that is still there is named, distinct accounts get
    distinct names that are safe to type, and the order the shares are kept in never shows.
   */
  lemma SlugsNameEveryShareOnce(d: Data, personId: string, shares: seq<Share>)
    requires multiset(shares) == multiset(d.shares)
    ensures var slugs := SlugsOf(d, personId);
            && (forall id :: id in slugs <==> id in IdsOf(d.shares, personId) && FindAccount(d.accounts, id) >= 0)
            && (forall id <- slugs :: ShellSafe(slugs[id]))
            && (forall a <- slugs, b <- slugs :: slugs[a] == slugs[b] ==> a == b)
            && SlugsOf(d.(shares := shares), personId) == slugs
  {
    hide ShellSafe, FindAccount, NameAll, IdsOf, Sort;
    var ids := IdsOf(d.shares, personId);
    var other := IdsOf(shares, personId);
    SortOrders(ids);
    SortOrders(other);
    SameSharesSameIds(shares, d.shares, personId);
    SortedIsUnique(Sort(other), Sort(ids));
    NamesAreDistinct(d.accounts, Sort(ids));
    forall id ensures id in Sort(ids) <==> id in ids {
      assert id in multiset(Sort(ids)) <==> id in multiset(ids);
    }
  }

  // ------------------------------------------------------------ which name it is

  lemma SafeStays(s: string)
    requires forall c <- s :: IsWordChar(c) || c == '-'
    ensures Lower(s) == s && Squeezed(s) == s
  {
    forall i | 0 <= i < |s| ensures LowerChar(s[i]) == s[i] {
      assert s[i] in s;
    }
    assert Lower(s) == s;
    NothingIsSqueezed(s);
  }

  lemma {:induction false} NothingIsSqueezed(s: string)
    requires forall c <- s :: IsWordChar(c) || c == '-'
    ensures Squeezed(s) == s
    decreases |s|
  {
    if s != "" {
      var rest := s[1..];
      assert s == [s[0]] + rest;
      NothingIsSqueezed(rest);
      assert Squeezed(s) == [s[0]] + Squeezed(rest);
    }
  }

  /** A name that is safe to type already is its own short name, and a login's is the part of its email before the @. */
  lemma ASafeNameIsKept(name: string, domain: string)
    requires ShellSafe(name)
    ensures Slugify(name) == name && ShareSlug(name) == name
    ensures name != "account" ==> ShareSlug(name + ("@" + domain)) == name
  {
    forall c <- name ensures IsWordChar(c) || c == '-' {
      var i :| 0 <= i < |name| && name[i] == c;
    }
    SafeStays(name);
    IndexIs(name, "", '@');
    assert name + "" == name;
    var email := name + ("@" + domain);
    IndexIs(name, "@" + domain, '@');
    assert email[..|name|] == name;
  }

  lemma {:induction false} IndexIs(s: string, r: string, c: char)
    requires c !in s && (r == "" || r[0] == c)
    ensures IndexOf(s + r, c) == |s|
    decreases |s|
  {
    if s == "" {
      assert s + r == r;
    } else {
      assert (s + r)[1..] == s[1..] + r && (s + r)[0] == s[0];
      IndexIs(s[1..], r, c);
    }
  }

  /** Case does not show in a name, nor does what is neither a letter, a digit, a blank nor a dash. */
  lemma {:induction false} WhatGoesDoesNotShow(a: string, c: char, b: string)
    requires !IsWordChar(LowerChar(c)) && c != ' ' && c != '-' && c != '_'
    ensures Slugify(a + [c] + b) == Slugify(a + b)
    ensures Slugify(Lower(a)) == Slugify(a)
  {
    hide TrimDashesLeft, TrimDashesRight;
    SqueezedJoins(Lower(a), Lower([c] + b));
    SqueezedJoins(Lower(a), Lower(b));
    LowerJoins(a, [c] + b);
    LowerJoins(a, b);
    assert a + [c] + b == a + ([c] + b);
    assert ([c] + b)[1..] == b;
    assert Lower([c] + b) == [LowerChar(c)] + Lower(b);
    assert ([LowerChar(c)] + Lower(b))[1..] == Lower(b);
    assert Lower(Lower(a)) == Lower(a);
  }

  lemma LowerJoins(a: string, b: string)
    ensures Lower(a + b) == Lower(a) + Lower(b)
  {
  }

  lemma {:induction false} SqueezedJoins(a: string, b: string)
    ensures Squeezed(a + b) == Squeezed(a) + Squeezed(b)
    decreases |a|
  {
    if a == "" {
      assert a + b == b;
    } else {
      assert (a + b)[1..] == a[1..] + b && (a + b)[0] == a[0];
      SqueezedJoins(a[1..], b);
    }
  }

  /** The names taken are those given, when no account comes twice. */
  lemma {:induction false} TakenAreGiven(accounts: seq<Account>, ids: seq<string>)
    requires forall i, j :: 0 <= i < j < |ids| ==> ids[i] != ids[j]
    ensures NameAll(accounts, ids).taken == NameAll(accounts, ids).out.Values
    decreases |ids|
  {
    if ids != [] {
      hide ShareSlug, FirstFree;
      var n := |ids| - 1;
      var front := ids[..n];
      TakenAreGiven(accounts, front);
      NamesAreDistinct(accounts, front);
      var before := NameAll(accounts, front);
      var s := NameAll(accounts, ids);
      assert s == NameNext(before, accounts, ids[n]);
      assert ids[n] !in before.out;
      if FindAccount(accounts, ids[n]) >= 0 {
        var slug := FirstFree(ShareSlug(accounts[FindAccount(accounts, ids[n])].name), before.taken, 1);
        assert s.out == before.out[ids[n] := slug] && s.out[ids[n]] == slug;
        forall name <- before.taken ensures name in s.out.Values {
          var other :| other in before.out && before.out[other] == name;
          assert s.out[other] == name;
        }
      }
    }
  }

  ghost predicate IsCandidate(name: string, base: string, taken: set<string>) {
    exists k :: k >= 1 && name == Candidate(base, k) && forall j :: 1 <= j < k ==> Candidate(base, j) in taken
  }

  lemma {:induction false} NamesAreCandidates(accounts: seq<Account>, ids: seq<string>, id: string)
    requires id in NameAll(accounts, ids).out
    ensures FindAccount(accounts, id) >= 0
    ensures IsCandidate(NameAll(accounts, ids).out[id], ShareSlug(accounts[FindAccount(accounts, id)].name), NameAll(accounts, ids).taken)
    decreases |ids|
  {
    hide ShareSlug;
    var n := |ids| - 1;
    var front := ids[..n];
    var before, s := NameAll(accounts, front), NameAll(accounts, ids);
    assert s == NameNext(before, accounts, ids[n]);
    if ids[n] == id && FindAccount(accounts, id) >= 0 {
      var base := ShareSlug(accounts[FindAccount(accounts, id)].name);
      var k :| k >= 1 && s.out[id] == Candidate(base, k) && forall j :: 1 <= j < k ==> Candidate(base, j) in before.taken;
      assert forall j :: 1 <= j < k ==> Candidate(base, j) in s.taken;
    } else {
      NamesAreCandidates(accounts, front, id);
      var base := ShareSlug(accounts[FindAccount(accounts, id)].name);
      var k :| k >= 1 && before.out[id] == Candidate(base, k) && forall j :: 1 <= j < k ==> Candidate(base, j) in before.taken;
      assert forall j :: 1 <= j < k ==> Candidate(base, j) in s.taken;
    }
  }

  lemma {:induction false} IdsAre(shares: seq<Share>, personId: string, id: string)
    ensures id in IdsOf(shares, personId) <==> exists sh <- shares :: sh.personId == personId && sh.accountId == id
    decreases |shares|
  {
    if shares != [] {
      var n := |shares| - 1;
      assert shares == shares[..n] + [shares[n]];
      IdsAre(shares[..n], personId, id);
    }
  }

  /**
    Exactly the accounts shared with the person that are still there have a name; it is
    the account's own, or its own and a number, and a name without a number, or with a
    smaller one from two on, was passed over only for being taken.
   */
  lemma AnAccountKeepsItsNameUnlessTaken(d: Data, personId: string, id: string)
    ensures var slugs := SlugsOf(d, personId);
            id in slugs <==> FindAccount(d.accounts, id) >= 0 && exists sh <- d.shares :: sh.personId == personId && sh.accountId == id
    ensures var s := NameAll(d.accounts, Sort(IdsOf(d.shares, personId)));
            id in s.out ==> IsCandidate(s.out[id], ShareSlug(d.accounts[FindAccount(d.accounts, id)].name), s.taken)
    ensures var ids := IdsOf(d.shares, personId);
            (forall i, j :: 0 <= i < j < |ids| ==> ids[i] != ids[j]) ==>
              NameAll(d.accounts, Sort(ids)).taken == SlugsOf(d, personId).Values
  {
    hide NameAll, IsCandidate, Sort, ShareSlug, IdsOf;
    SlugsNameEveryShareOnce(d, personId, d.shares);
    IdsAre(d.shares, personId, id);
    var ids := IdsOf(d.shares, personId);
    if id in NameAll(d.accounts, Sort(ids)).out {
      NamesAreCandidates(d.accounts, Sort(ids), id);
    }
    if forall i, j :: 0 <= i < j < |ids| ==> ids[i] != ids[j] {
      SortOrders(ids);
      DistinctInAnyOrder(ids, Sort(ids));
      TakenAreGiven(d.accounts, Sort(ids));
    }
  }

  lemma DistinctInAnyOrder(a: seq<string>, b: seq<string>)
    requires multiset(a) == multiset(b) && forall i, j :: 0 <= i < j < |a| ==> a[i] != a[j]
    ensures forall i, j :: 0 <= i < j < |b| ==> b[i] != b[j]
  {
    forall i, j | 0 <= i < j < |b| ensures b[i] != b[j] {
      if b[i] == b[j] {
        assert b == b[..i] + [b[i]] + b[i + 1..j] + [b[j]] + b[j + 1..];
        assert multiset(b)[b[i]] >= 2;
        AtMostOnce(a, b[i]);
      }
    }
  }

  lemma {:induction false} AtMostOnce(a: seq<string>, x: string)
    requires forall i, j :: 0 <= i < j < |a| ==> a[i] != a[j]
    ensures multiset(a)[x] <= 1
    decreases |a|
  {
    if a != [] {
      assert a == [a[0]] + a[1..];
      AtMostOnce(a[1..], x);
    }
  }
}
