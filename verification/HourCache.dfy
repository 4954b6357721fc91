/**
  The cache-lifetime rewrite (internal/gateway/cache.go): every breakpoint of a request is
  given an hour, on the bytes themselves, or the request is left wholly as it is. Bytes are
  characters here; everything the rewrite matches is ASCII.
 */
module HourCache {
  import opened Strings

  /** Occurrences counted from the left without overlap. */
  function Count(s: string, p: string): nat
    requires p != ""
    decreases |s|
  {
    if |s| < |p| then 0 else if p <= s then 1 + Count(s[|p|..], p) else Count(s[1..], p)
  }

  /** Occurrences replaced from the left without overlap. */
  function ReplaceAll(s: string, p: string, q: string): string
    requires p != ""
    decreases |s|
  {
    if |s| < |p| then s
    else if p <= s then q + ReplaceAll(s[|p|..], p, q)
    else [s[0]] + ReplaceAll(s[1..], p, q)
  }

  predicate At(s: string, i: nat, p: string) {
    i + |p| <= |s| && s[i..i + |p|] == p
  }

  /** Wherever the key stands, it is the start of p. */
  ghost predicate Every(s: string, key: string, p: string) {
    forall i: nat :: At(s, i, key) ==> At(s, i, p)
  }

  /** The key does not fit over p's characters from d on. */
  predicate Clashes(key: string, p: string, d: nat) {
    exists k :: 0 <= k < |key| && d + k < |p| && key[k] != p[d + k]
  }

  ghost predicate Whole(key: string, p: string) {
    forall d: nat :: 1 <= d < |p| ==> Clashes(key, p, d)
  }

  /** p starts with the key and holds no other start of it, nor does the key itself. */
  ghost predicate Marks(key: string, p: string) {
    key != "" && key <= p && Whole(key, key) && Whole(key, p)
  }

  /** Two marks of one key, alike up to the first one's last character. */
  ghost predicate Siblings(key: string, bare: string, hour: string) {
    && Marks(key, bare) && Marks(key, hour)
    && |key| < |bare| <= |hour|
    && bare[..|bare| - 1] == hour[..|bare| - 1] && bare[|bare| - 1] != hour[|bare| - 1]
  }

  // ------------------------------------------------------------ counting

  lemma AtShift(s: string, n: nat, i: nat, p: string)
    requires n <= |s|
    ensures At(s, n + i, p) <==> At(s[n..], i, p)
  {
    if n + i + |p| <= |s| {
      assert s[n + i..n + i + |p|] == s[n..][i..i + |p|];
    }
  }

  lemma AtStart(s: string, p: string)
    ensures At(s, 0, p) <==> p <= s
  {
  }

  lemma AtPrefix(s: string, i: nat, p: string, q: string)
    requires p <= q && At(s, i, q)
    ensures At(s, i, p)
  {
    assert s[i..i + |p|] == s[i..i + |q|][..|p|];
  }

  /** No key starts strictly inside a mark. */
  lemma NoKeyInside(s: string, key: string, p: string, d: nat)
    requires Marks(key, p) && p <= s && 1 <= d < |p|
    ensures !At(s, d, key)
  {
    assert Clashes(key, p, d);
    var k :| 0 <= k < |key| && d + k < |p| && key[k] != p[d + k];
    assert d + |key| <= |s| ==> s[d..d + |key|][k] == s[d + k];
  }

  /** A stretch where nothing starts counts for nothing. */
  lemma {:induction false} CountSkips(s: string, n: nat, p: string)
    requires p != "" && n <= |s|
    requires forall d: nat :: d < n ==> !At(s, d, p)
    ensures Count(s, p) == Count(s[n..], p)
    decreases n
  {
    if n > 0 {
      AtStart(s, p);
      forall d: nat | d < n - 1 ensures !At(s[1..], d, p) {
        AtShift(s, 1, d, p);
      }
      CountSkips(s[1..], n - 1, p);
      assert s[1..][n - 1..] == s[n..];
      if |s| < |p| {
        assert |s[n..]| < |p|;
      }
    }
  }

  lemma CountFront(s: string, p: string)
    requires p != "" && p <= s
    ensures Count(s, p) == 1 + Count(s[|p|..], p)
  {
  }

  /** One mark at the front counts once, for itself and for its key. */
  lemma CountAfterMark(s: string, key: string, p: string)
    requires Marks(key, p) && p <= s
    ensures Count(s, key) == 1 + Count(s[|p|..], key)
    ensures Count(s, p) == 1 + Count(s[|p|..], p)
  {
    hide Count, At, Whole;
    CountFront(s, key);
    CountFront(s, p);
    var t := s[|key|..];
    forall d: nat | d < |p| - |key| ensures !At(t, d, key) {
      NoKeyInside(s, key, p, |key| + d);
      AtShift(s, |key|, d, key);
    }
    CountSkips(t, |p| - |key|, key);
    assert t[|p| - |key|..] == s[|p|..];
  }

  lemma EveryShifts(s: string, n: nat, key: string, p: string)
    requires n <= |s| && Every(s, key, p)
    ensures Every(s[n..], key, p)
  {
    forall i: nat | At(s[n..], i, key) ensures At(s[n..], i, p) {
      AtShift(s, n, i, key);
      AtShift(s, n, i, p);
    }
  }

  /** The counts are equal exactly when every key starts a mark; marks never outnumber keys. */
  lemma {:induction false} CountsAgreeExactlyWhen(s: string, key: string, p: string)
    requires Marks(key, p)
    ensures Count(s, p) <= Count(s, key)
    ensures Count(s, p) == Count(s, key) <==> Every(s, key, p)
    decreases |s|
  {
    AtStart(s, key);
    AtStart(s, p);
    if |s| < |key| {
    } else if p <= s {
      CountAfterMark(s, key, p);
      CountsAgreeExactlyWhen(s[|p|..], key, p);
      if Every(s, key, p) {
        EveryShifts(s, |p|, key, p);
      }
      if Every(s[|p|..], key, p) {
        EveryAfterMark(s, key, p);
      }
    } else if key <= s {
      assert !Every(s, key, p);
      KeyWithoutMark(s, key, p);
      CountsAgreeExactlyWhen(s[|key|..], key, p);
    } else {
      CountSkips(s, 1, key);
      CountSkips(s, 1, p);
      CountsAgreeExactlyWhen(s[1..], key, p);
      if Every(s, key, p) {
        EveryShifts(s, 1, key, p);
      }
      if Every(s[1..], key, p) {
        EveryFromOne(s, key, p);
      }
    }
  }

  lemma KeyWithoutMark(s: string, key: string, p: string)
    requires Marks(key, p) && key <= s && !(p <= s)
    ensures Count(s, key) == 1 + Count(s[|key|..], key)
    ensures Count(s, p) == Count(s[|key|..], p)
  {
    forall d: nat | d < |key| ensures !At(s, d, p) {
      if d == 0 {
        AtStart(s, p);
      } else if At(s, d, p) {
        AtPrefix(s, d, key, p);
        NoKeyInside(s, key, key, d);
      }
    }
    CountSkips(s, |key|, p);
  }

  lemma EveryAfterMark(s: string, key: string, p: string)
    requires Marks(key, p) && p <= s && Every(s[|p|..], key, p)
    ensures Every(s, key, p)
  {
    forall i: nat | At(s, i, key) ensures At(s, i, p) {
      if i == 0 {
        AtStart(s, p);
      } else if i < |p| {
        NoKeyInside(s, key, p, i);
      } else {
        AtShift(s, |p|, i - |p|, key);
        AtShift(s, |p|, i - |p|, p);
      }
    }
  }

  lemma EveryFromOne(s: string, key: string, p: string)
    requires key != "" && s != "" && !(key <= s) && Every(s[1..], key, p)
    ensures Every(s, key, p)
  {
    forall i: nat | At(s, i, key) ensures At(s, i, p) {
      AtStart(s, key);
      AtShift(s, 1, i - 1, key);
      AtShift(s, 1, i - 1, p);
    }
  }

  // ------------------------------------------------------------ replacing

  /** A replaced text agrees with the original up to where the two marks part. */
  lemma {:induction false} ReplacedHead(s: string, key: string, bare: string, hour: string)
    requires Siblings(key, bare, hour)
    ensures var r := ReplaceAll(s, bare, hour);
            && |r| >= |s| && (|s| < |bare| ==> r == s)
            && (|s| >= |bare| ==> r[..|bare| - 1] == s[..|bare| - 1])
    decreases |s|
  {
    var r := ReplaceAll(s, bare, hour);
    if |s| < |bare| {
    } else if bare <= s {
      ReplacedHead(s[|bare|..], key, bare, hour);
      assert r[..|bare| - 1] == hour[..|bare| - 1] && s[..|bare| - 1] == bare[..|bare| - 1];
    } else {
      ReplacedHead(s[1..], key, bare, hour);
      var n := |bare| - 1;
      assert r[1..] == ReplaceAll(s[1..], bare, hour);
      assert r[..n] == [r[0]] + r[1..][..n - 1] && s[..n] == [s[0]] + s[1..][..n - 1];
      if |s[1..]| >= |bare| {
        assert r[1..][..n - 1] == r[1..][..n][..n - 1] && s[1..][..n - 1] == s[1..][..n][..n - 1];
      }
    }
  }

  /** So the replacement neither makes nor breaks a key at the front. */
  lemma KeyStaysAtTheFront(s: string, key: string, bare: string, hour: string)
    requires Siblings(key, bare, hour)
    ensures key <= ReplaceAll(s, bare, hour) <==> key <= s
  {
    ReplacedHead(s, key, bare, hour);
    if |s| >= |bare| {
      var r, n := ReplaceAll(s, bare, hour), |bare| - 1;
      assert r[..|key|] == r[..n][..|key|] && s[..|key|] == s[..n][..|key|];
    }
  }

  /** Where every key is a bare breakpoint, replacing makes every key an hour one, and no more of them. */
  lemma {:induction false} EveryBreakpointIsReplaced(s: string, key: string, bare: string, hour: string)
    requires Siblings(key, bare, hour) && Every(s, key, bare)
    ensures var r := ReplaceAll(s, bare, hour); Every(r, key, hour) && Count(r, key) == Count(s, key)
    decreases |s|
  {
    var r := ReplaceAll(s, bare, hour);
    AtStart(s, key);
    if |s| < |bare| {
      assert forall i: nat :: !At(s, i, bare);
    } else if bare <= s {
      var t := s[|bare|..];
      EveryShifts(s, |bare|, key, bare);
      EveryBreakpointIsReplaced(t, key, bare, hour);
      assert r[|hour|..] == ReplaceAll(t, bare, hour) && hour <= r;
      EveryAfterMark(r, key, hour);
      CountAfterMark(r, key, hour);
      CountAfterMark(s, key, bare);
    } else {
      assert !(key <= s);
      KeyStaysAtTheFront(s, key, bare, hour);
      EveryShifts(s, 1, key, bare);
      EveryBreakpointIsReplaced(s[1..], key, bare, hour);
      assert r[1..] == ReplaceAll(s[1..], bare, hour);
      EveryFromOne(r, key, hour);
      AtStart(r, key);
      CountSkips(r, 1, key);
      CountSkips(s, 1, key);
    }
  }

  /** And putting the bare ones back gives the original bytes. */
  lemma {:induction false} ReplacingBackRestores(s: string, key: string, bare: string, hour: string)
    requires Siblings(key, bare, hour) && Every(s, key, bare)
    ensures ReplaceAll(ReplaceAll(s, bare, hour), hour, bare) == s
    decreases |s|
  {
    var r := ReplaceAll(s, bare, hour);
    AtStart(s, key);
    if |s| < |bare| {
    } else if bare <= s {
      var t := s[|bare|..];
      EveryShifts(s, |bare|, key, bare);
      ReplacingBackRestores(t, key, bare, hour);
      assert r[|hour|..] == ReplaceAll(t, bare, hour) && hour <= r;
      assert bare + t == s;
    } else {
      KeyStaysAtTheFront(s, key, bare, hour);
      EveryShifts(s, 1, key, bare);
      ReplacingBackRestores(s[1..], key, bare, hour);
      assert r[1..] == ReplaceAll(s[1..], bare, hour);
      assert !(key <= s) && !(hour <= r);
      assert s == [s[0]] + s[1..] && r == [s[0]] + r[1..];
    }
  }

  // ------------------------------------------------------------ the request

  const KEY := "\"cache_control\":"
  const BARE := KEY + "{\"type\":" + "\"ephemeral\"}"
  const HOUR := KEY + "{\"type\":" + "\"ephemeral\"," + "\"ttl\":\"1h\"}"
  const HOUR_CACHE_BETA := "extended-cache-ttl-2025-04-11"
  const MESSAGES_ENDPOINT := "/v1/messages"

  /** No place in p where the key could start: no quote is followed by a c. */
  predicate Free(p: string) {
    forall d :: 0 <= d < |p| ==> FreeAt(p, d)
  }

  predicate FreeAt(p: string, d: int)
    requires 0 <= d < |p|
  {
    p[d] != '"' || (d + 1 < |p| && p[d + 1] != 'c')
  }

  lemma FreeIsWhole(p: string)
    requires Free(p)
    ensures Whole(KEY, [KEY[0]] + p)
  {
    var q := [KEY[0]] + p;
    assert KEY[0] == '"' && KEY[1] == 'c' && |KEY| == 16;
    forall d: nat | 1 <= d < |q| ensures Clashes(KEY, q, d) {
      assert FreeAt(p, d - 1);
      assert q[d] == p[d - 1];
      assert d + 1 < |q| ==> q[d + 1] == p[d];
      assert KEY[0] != q[d + 0] || KEY[1] != q[d + 1];
    }
  }

  lemma FreeJoins(a: string, b: string)
    requires Free(a) && Free(b)
    ensures Free(a + b)
  {
    var p := a + b;
    forall d | 0 <= d < |p| ensures FreeAt(p, d) {
      if d < |a| {
        assert FreeAt(a, d);
        assert p[d] == a[d] && (d + 1 < |a| ==> p[d + 1] == a[d + 1]);
      } else {
        assert FreeAt(b, d - |a|);
        assert p[d] == b[d - |a|] && (d + 1 < |p| ==> p[d + 1] == b[d + 1 - |a|]);
      }
    }
  }

  lemma TheBreakpointsAreSiblings()
    ensures Siblings(KEY, BARE, HOUR)
  {
    hide Whole;
    var k, t, e, f, h := KEY[1..], "{\"type\":", "\"ephemeral\"}", "\"ephemeral\",", "\"ttl\":\"1h\"}";
    assert Free(k);
    assert Free(t);
    assert Free(e);
    assert Free(f);
    assert Free(h);
    FreeIsWhole(k);
    FreeJoins(k, t);
    FreeJoins(k + t, e);
    FreeIsWhole(k + t + e);
    FreeJoins(k + t, f);
    FreeJoins(k + t + f, h);
    FreeIsWhole(k + t + f + h);
    assert [KEY[0]] + k == KEY && [KEY[0]] + (k + t + e) == BARE && [KEY[0]] + (k + t + f + h) == HOUR;
    assert e[..|e| - 1] == f[..|f| - 1];
  }

  datatype Request = Request(verb: string, path: string, beta: string, body: string)

  /** A header's values, split at commas. */
  function Split(s: string): (parts: seq<string>)
    ensures parts != []
    decreases |s|
  {
    if s == "" then [""]
    else
      var rest := Split(s[1..]);
      if s[0] == ',' then [""] + rest else [[s[0]] + rest[0]] + rest[1..]
  }

  predicate Names(have: string, need: string) {
    exists part <- Split(have) :: Trim(part) == need
  }

  /** The header with one more beta, if it was not asked for already. */
  function WithBeta(have: string, need: string): string {
    if have == "" then need
    else if Names(have, need) then have
    else have + "," + need
  }

  predicate Fires(r: Request) {
    && r.verb == "POST" && r.path == MESSAGES_ENDPOINT
    && Count(r.body, BARE) != 0 && Count(r.body, BARE) == Count(r.body, KEY)
  }

  function WithHourCache(r: Request): Request {
    if Fires(r) then r.(beta := WithBeta(r.beta, HOUR_CACHE_BETA), body := ReplaceAll(r.body, BARE, HOUR)) else r
  }

  /** It fires for a message with a breakpoint none of whose breakpoints chose for itself. */
  lemma FiresExactlyWhen(r: Request)
    ensures Fires(r) <==> r.verb == "POST" && r.path == MESSAGES_ENDPOINT
                          && Every(r.body, KEY, BARE) && exists i: nat :: At(r.body, i, KEY)
  {
    hide Count, Every, Marks, At;
    TheBreakpointsAreSiblings();
    CountsAgreeExactlyWhen(r.body, KEY, BARE);
    SomeExactlyWhenCounted(r.body, KEY);
  }

  lemma {:induction false} SomeExactlyWhenCounted(s: string, p: string)
    requires p != ""
    ensures Count(s, p) == 0 <==> forall i: nat :: !At(s, i, p)
    decreases |s|
  {
    AtStart(s, p);
    if |s| < |p| {
    } else if !(p <= s) {
      CountSkips(s, 1, p);
      SomeExactlyWhenCounted(s[1..], p);
      forall i: nat ensures At(s[1..], i, p) <==> At(s, 1 + i, p) {
        AtShift(s, 1, i, p);
      }
      assert forall i: nat :: i > 0 ==> (At(s, i, p) <==> At(s[1..], i - 1, p));
    }
  }

  lemma NotBoth(s: string, i: nat, key: string, bare: string, hour: string)
    requires Siblings(key, bare, hour)
    ensures !(At(s, i, bare) && At(s, i, hour))
  {
    assert hour[..|bare|][|bare| - 1] != bare[|bare| - 1];
    assert i + |hour| <= |s| ==> s[i..i + |bare|] == s[i..i + |hour|][..|bare|];
  }

  lemma NoBareAmongHours(s: string)
    requires Every(s, KEY, HOUR)
    ensures Count(s, BARE) == 0
  {
    hide At;
    TheBreakpointsAreSiblings();
    forall i: nat ensures !At(s, i, BARE) {
      NotBoth(s, i, KEY, BARE, HOUR);
      if At(s, i, BARE) {
        AtPrefix(s, i, KEY, BARE);
      }
    }
    SomeExactlyWhenCounted(s, BARE);
  }

  /**
    All or nothing, and reversible: when the rewrite fires, every breakpoint is kept for an
    hour, there are as many as before, putting the bare ones back gives the original bytes
    and rewriting again changes nothing; when it does not, the request is untouched.
   */
  lemma TheRewriteIsAllOrNothing(r: Request)
    ensures var r' := WithHourCache(r);
            if Fires(r) then
              && Every(r'.body, KEY, HOUR) && Count(r'.body, KEY) == Count(r.body, KEY) == Count(r'.body, HOUR)
              && ReplaceAll(r'.body, HOUR, BARE) == r.body
              && WithHourCache(r') == r'
              && r' == r.(beta := r'.beta, body := r'.body)
            else r' == r
  {
    hide Count, ReplaceAll, Every, Marks;
    TheBreakpointsAreSiblings();
    if Fires(r) {
      CountsAgreeExactlyWhen(r.body, KEY, BARE);
      EveryBreakpointIsReplaced(r.body, KEY, BARE, HOUR);
      ReplacingBackRestores(r.body, KEY, BARE, HOUR);
      var body := ReplaceAll(r.body, BARE, HOUR);
      CountsAgreeExactlyWhen(body, KEY, HOUR);
      NoBareAmongHours(body);
    }
  }

  predicate Plain(need: string) {
    && need != "" && ',' !in need && !IsSpace(need[0]) && !IsSpace(need[|need| - 1])
  }

  lemma {:induction false} SplitPlain(s: string)
    requires ',' !in s
    ensures Split(s) == [s]
    decreases |s|
  {
    if s != "" {
      SplitPlain(s[1..]);
      assert [s[0]] + s[1..] == s;
    }
  }

  lemma {:induction false} SplitJoined(a: string, b: string)
    ensures Split(a + "," + b) == Split(a) + Split(b)
    decreases |a|
  {
    if a == "" {
      assert a + "," + b == "," + b && ("," + b)[1..] == b;
    } else {
      var s := a + "," + b;
      assert s[0] == a[0] && s[1..] == a[1..] + "," + b;
      SplitJoined(a[1..], b);
    }
  }

  /** The header afterwards names the beta and whatever it named before, in order; asking again changes nothing. */
  lemma TheBetaIsAsked(have: string, need: string)
    requires Plain(need)
    ensures var h := WithBeta(have, need);
            && Names(h, need) && WithBeta(h, need) == h
            && (have != "" ==> Split(h) == Split(have) || Split(h) == Split(have) + [need])
  {
    SplitPlain(need);
    assert Trim(need) == need;
    assert Split(need)[0] == need;
    if have != "" && !Names(have, need) {
      SplitJoined(have, need);
      var h := have + "," + need;
      assert Split(h)[|Split(have)|] == need;
    }
  }

  lemma TheHourBetaIsPlain()
    ensures Plain(HOUR_CACHE_BETA)
  {
    assert |HOUR_CACHE_BETA| == 29;
    assert HOUR_CACHE_BETA == "extended-cache" + "-ttl-2025-04-11";
    assert ',' !in "extended-cache" && ',' !in "-ttl-2025-04-11";
  }

  /** So a rewritten request always names the extended lifetime. */
  lemma ARewrittenRequestNamesTheBeta(r: Request)
    requires Fires(r)
    ensures Names(WithHourCache(r).beta, HOUR_CACHE_BETA)
  {
    hide Fires, Names;
    TheHourBetaIsPlain();
    TheBetaIsAsked(r.beta, HOUR_CACHE_BETA);
  }
}
