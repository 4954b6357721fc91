/**
  Taking a setting out of a file that had it: what it leaves of the rest of the file, of its
  comments and of what the other settings read as.
 */
module SettingsRemoval {
  import opened Strings
  import opened Wrappers
  import opened Settings
  import opened SettingsEdits
  import opened SettingsValues
  import opened SettingsNeighbours
  import opened SettingsComments

  // ------------------------------------------------------------ what is taken out

  /** Where the text that is taken out starts and ends: the spaces before the key, and the value's trail. */
  function Removed(text: string, key: string): (r: (nat, nat))
    requires ValueSpan(text, key).Some?
    ensures r.0 <= |text| && r.1 <= |text|
  {
    var h, end := Find(text, Code, Needle(key)).value, ValueSpan(text, key).value.1;
    (Backed(text[..h]), end + Trail(text[end..]))
  }

  /** The last occurrence of the key before its value is the one that was found. */
  lemma TheLastKeyIsTheFound(text: string, key: string)
    requires ValueSpan(text, key).Some?
    ensures LastIndex(text[..ValueSpan(text, key).value.0], Needle(key)) == Find(text, Code, Needle(key))
  {
    hide Find, ValueSpan, LastIndex, Quiet, Needle;
    KeyIsBeforeItsValue(text, key);
    NeedleEndsInAQuote(key);
    var h, start := Find(text, Code, Needle(key)).value, ValueSpan(text, key).value.0;
    var n := |Needle(key)|;
    OnlyOneKey(text[..start], h, n, Needle(key), text[h + n..start]);
    LastIsThere(text[..start], h, Needle(key));
  }

  lemma NeedleEndsInAQuote(key: string)
    ensures |Needle(key)| >= 2 && Needle(key)[|Needle(key)| - 1] == '"'
  {
  }

  lemma OnlyOneKey(s: string, h: nat, n: nat, needle: string, gap: string)
    requires n == |needle| >= 2 && needle[n - 1] == '"' && h + n <= |s| && gap == s[h + n..] && Quiet(gap)
    ensures forall j :: h < j <= |s| ==> !(needle <= s[j..])
  {
    forall j | h < j <= |s| ensures !(needle <= s[j..]) {
      if j + n <= |s| {
        assert gap[j - 1 - h] == s[j + n - 1];
        assert s[j..][n - 1] == s[j + n - 1];
      }
    }
  }

  lemma LastIsThere(s: string, h: nat, needle: string)
    requires h <= |s| && needle <= s[h..] && forall j :: h < j <= |s| ==> !(needle <= s[j..])
    ensures LastIndex(s, needle) == Some(h)
  {
  }

  lemma TakenOut(text: string, key: string)
    requires ValueSpan(text, key).Some?
    ensures var (b, e) := Removed(text, key); WithoutKey(text, key) == Some(text[..b] + text[e..])
    ensures var (b, e) := Removed(text, key);
            var h := Find(text, Code, Needle(key)); h.Some? && b <= h.value < ValueSpan(text, key).value.0 && ValueSpan(text, key).value.1 <= e
  {
    hide Find, ValueSpan, LastIndex, Needle, Trail, Backed, Quiet;
    TheLastKeyIsTheFound(text, key);
    KeyIsBeforeItsValue(text, key);
    var h, start := Find(text, Code, Needle(key)).value, ValueSpan(text, key).value.0;
    assert text[..start][..h] == text[..h];
  }

  /** A value's trail is of spaces, one comma and one line's end. */
  lemma TrailIsQuiet(s: string)
    ensures Quiet(s[..Trail(s)])
  {
    var a := Spaces(s);
    var b := a + OneOf(s[a..], ',');
    var c := b + Spaces(s[b..]);
    assert forall i :: b <= i < c ==> s[i] == s[b..][i - b];
    assert c < |s| ==> s[c..][0] == s[c];
    assert a < |s| ==> s[a..][0] == s[a];
  }

  lemma BackedIsQuiet(s: string)
    ensures Quiet(s[Backed(s)..])
    ensures forall i :: Backed(s) <= i < |s| ==> IsSpaceOrTab(s[i])
  {
  }

  // ------------------------------------------------------------ text that ends in code

  /** A slash in code that makes a comment of what comes after it. */
  predicate Meets(p: string, r: string, m: Mode) {
    p != "" && r != "" && p[|p| - 1] == '/' && Classes(p, m)[|p| - 1] == Code && (r[0] == '/' || r[0] == '*')
  }

  lemma CodeStep(p: string, r: string, m: Mode)
    requires p != "" && EndMode(p, m) == Code && !Meets(p, r, m)
    ensures var (m', n) := Step(p, m);
            && Step(p + r, m) == (m', n) && (p + r)[n..] == p[n..] + r
            && EndMode(p[n..], m') == Code && !Meets(p[n..], r, m')
  {
    hide Classes, EndMode;
    var (m', n) := Step(p, m);
    EndStep(p, m);
    if |p| == 1 {
      assert p[1..] == "";
      Nothing(m');
      assert Classes(p, m)[0] == ClassOf(m, m');
      assert r != "" ==> (p + r)[1] == r[0];
    } else {
      assert (p + r)[0] == p[0] && (p + r)[1] == p[1];
      assert n < |p| ==> p[n..][|p| - n - 1] == p[|p| - 1] && Classes(p[n..], m')[|p| - n - 1] == Classes(p, m)[|p| - 1];
    }
  }

  lemma {:induction false} CodeJoins(p: string, r: string, m: Mode)
    requires EndMode(p, m) == Code && !Meets(p, r, m)
    ensures Classes(p + r, m) == Classes(p, m) + Classes(r, Code)
    decreases |p|
  {
    hide Classes, EndMode, Step, Meets;
    if p == "" {
      assert p + r == r;
      Nothing(m);
    } else {
      CodeStep(p, r, m);
      EndStep(p, m);
      EndStep(p + r, m);
      var (m', n) := Step(p, m);
      CodeJoins(p[n..], r, m');
    }
  }

  /** Otherwise the slash becomes part of a comment. */
  lemma {:induction false} ASlashMeets(p: string, r: string, m: Mode)
    requires EndMode(p, m) == Code && Meets(p, r, m)
    ensures Classes(p + r, m)[|p| - 1] != Code
    decreases |p|
  {
    hide Classes, EndMode;
    var (m', n) := Step(p, m);
    EndStep(p, m);
    EndStep(p + r, m);
    if |p| == 1 {
      assert p[1..] == "";
      Nothing(m');
      assert Classes(p, m)[0] == ClassOf(m, m');
      assert (p + r)[1] == r[0];
      assert Classes(p + r, m)[0] == ClassOf(m, Step(p + r, m).0);
    } else {
      assert (p + r)[0] == p[0] && (p + r)[1] == p[1];
      assert (p + r)[n..] == p[n..] + r;
      assert Classes(p, m)[n - 1] == ClassOf(m, m');
      if n < |p| {
        assert p[n..][|p| - n - 1] == p[|p| - 1] && Classes(p[n..], m')[|p| - n - 1] == Classes(p, m)[|p| - 1];
        ASlashMeets(p[n..], r, m');
      }
    }
  }

  /** Before spaces a scan that is in code after them is in code. */
  lemma {:induction false} CodeBeforeASpace(p: string, c: char, m: Mode)
    requires IsSpaceOrTab(c) && EndMode(p + [c], m) == Code
    ensures EndMode(p, m) == Code
    decreases |p|
  {
    hide EndMode, Classes;
    var s := p + [c];
    EndStep(s, m);
    var (m', n) := Step(s, m);
    if p == "" {
      assert s[1..] == "";
      Nothing(m');
      Nothing(m);
    } else {
      EndStep(p, m);
      assert s[0] == p[0] && s[1] == if |p| == 1 then c else p[1];
      if n <= |p| {
        assert Step(p, m) == Step(s, m);
        assert s[n..] == p[n..] + [c];
        CodeBeforeASpace(p[n..], c, m');
      } else {
        assert s[n..] == "";
        Nothing(m');
      }
    }
  }

  lemma {:induction false} CodeBeforeSpaces(s: string, b: nat)
    requires b <= |s| && (forall i :: b <= i < |s| ==> IsSpaceOrTab(s[i])) && EndMode(s, Code) == Code
    ensures EndMode(s[..b], Code) == Code
    decreases |s|
  {
    hide EndMode;
    if b == |s| {
      assert s[..b] == s;
    } else {
      var t := s[..|s| - 1];
      assert s == t + [s[|s| - 1]];
      CodeBeforeASpace(t, s[|s| - 1], Code);
      CodeBeforeSpaces(t, b);
      assert t[..b] == s[..b];
    }
  }

  /** Up to where a key is found the scan ends in code. */
  lemma {:induction false} FoundFromCode(s: string, m: Mode, needle: string)
    requires Find(s, m, needle).Some?
    ensures EndMode(s[..Find(s, m, needle).value], m) == Code
    decreases |s|
  {
    hide Find, EndMode, Step, Classes;
    var h := Find(s, m, needle).value;
    FindStep(s, m, needle);
    if Hit(s, m, needle) {
      assert s[..h] == "";
      Nothing(m);
    } else {
      var (m', n) := Step(s, m);
      assert 1 <= n <= h;
      FoundFromCode(s[n..], m', needle);
      StepOfAPrefix(s, h, m);
      EndStep(s[..h], m);
      assert s[..h][n..] == s[n..][..h - n];
    }
  }

  lemma StepOfAPrefix(s: string, h: nat, m: Mode)
    requires s != "" && Step(s, m).1 <= h < |s|
    ensures h >= 1 && Step(s[..h], m) == Step(s, m)
  {
    assert h >= 2 ==> s[..h][0] == s[0] && s[..h][1] == s[1];
    assert h >= 1 ==> s[..h][0] == s[0];
  }

  /** The text before what is taken out ends in code. */
  lemma BeforeIsInCode(text: string, key: string)
    requires ValueSpan(text, key).Some?
    ensures EndMode(text[..Removed(text, key).0], Code) == Code
  {
    hide Find, EndMode, ValueSpan, Needle, Trail;
    TakenOut(text, key);
    var h := Find(text, Code, Needle(key)).value;
    FoundFromCode(text, Code, Needle(key));
    var b := Backed(text[..h]);
    CodeBeforeSpaces(text[..h], b);
    assert text[..h][..b] == text[..b];
  }

  // ------------------------------------------------------------ the rest of the file

  /** A value that closes the strings it opens, unless it holds a comment. */
  predicate Closes(x: string) {
    NoComments(Classes(x, Code)) ==> EndMode(x, Code) == Code
  }

  /** A value without a quote closes them, and so does every string, array and object. */
  lemma {:induction false} NoQuoteCloses(s: string, m: Mode)
    requires '"' !in s && m == Code && NoComments(Classes(s, m))
    ensures EndMode(s, m) == Code
    decreases |s|
  {
    hide Classes, EndMode;
    if s == "" {
      Nothing(m);
    } else {
      EndStep(s, m);
      var (m', n) := Step(s, m);
      var all, rest := Classes(s, m), Classes(s[n..], m');
      assert all[0] == ClassOf(m, m') && all[n..] == rest;
      forall i | 0 <= i < |rest| ensures rest[i] == all[n + i] {
      }
      assert NoComments(rest);
      assert forall c <- s[n..] :: c in s;
      NoQuoteCloses(s[n..], m');
    }
  }

  lemma NoCommentsJoin(a: seq<Mode>, b: seq<Mode>)
    ensures NoComments(a + b) <==> NoComments(a) && NoComments(b)
  {
    assert forall i :: 0 <= i < |a| ==> (a + b)[i] == a[i];
    assert forall i :: 0 <= i < |b| ==> (a + b)[|a| + i] == b[i];
  }

  /** What stands between p and r: something inert, a value, something inert. */
  lemma WhatStandsBetween(p: string, a: string, x: string, t: string, r: string)
    requires EndMode(p, Code) == Code && !Meets(p, a + (x + (t + r)), Code) && Inert(a) && Inert(t) && Closes(x)
    requires Rounded(x) || t + r == "" || IsStop((t + r)[0])
    ensures var was := Classes(p + (a + x + t) + r, Code);
            && was[..|p|] == Classes(p, Code)
            && (NoComments(was[|p|..|p| + |a + x + t|]) ==> NoComments(Classes(x, Code)))
            && (NoComments(Classes(x, Code)) ==> NoComments(was[|p|..|p| + |a + x + t|]) && was[|p| + |a + x + t|..] == Classes(r, Code))
  {
    hide Classes, EndMode, Meets, Tight, Rounded, NoComments;
    var u := x + (t + r);
    assert p + (a + x + t) + r == p + (a + u);
    CodeJoins(p, a + u, Code);
    Joined(a, u, Code);
    Joined(t, r, Code);
    AfterAnOldValue(x, t + r);
    var cp, ca, cx, ct, cr := Classes(p, Code), Classes(a, Code), Classes(x, Code), Classes(t, Code), Classes(r, Code);
    var cu, was := Classes(u, Code), Classes(p + (a + x + t) + r, Code);
    assert was == cp + (ca + cu);
    var mid := was[|p|..|p| + |a + x + t|];
    assert mid == ca + cu[..|x| + |t|];
    assert cu[..|x| + |t|] == cx + cu[|x|..|x| + |t|];
    NoCommentsJoin(ca, cx + cu[|x|..|x| + |t|]);
    NoCommentsJoin(cx, cu[|x|..|x| + |t|]);
    assert was[|p| + |a + x + t|..] == cu[|x| + |t|..];
    if NoComments(cx) {
      assert cu[|x|..] == ct + cr by { AfterAClosedValue(x, t, r); }
      assert cu[|x|..|x| + |t|] == cu[|x|..][..|t|] == ct;
      assert cu[|x| + |t|..] == cu[|x|..][|t|..] == cr;
    }
  }

  lemma AfterAClosedValue(x: string, t: string, r: string)
    requires NoComments(Classes(x, Code)) && Closes(x) && Inert(t) && (Rounded(x) || t + r == "" || IsStop((t + r)[0]))
    ensures Classes(x + (t + r), Code)[|x|..] == Classes(t, Code) + Classes(r, Code)
  {
    hide Classes, EndMode, Tight, Rounded;
    AfterAnOldValue(x, t + r);
    Joined(t, r, Code);
  }

  /** Taking it out, of p + (a + x + t) + r. */
  lemma RemovalIsUntouchedExactlyWhen(p: string, a: string, x: string, t: string, r: string)
    requires EndMode(p, Code) == Code && !Meets(p, a + (x + (t + r)), Code) && Inert(a) && Inert(t) && Closes(x)
    requires Rounded(x) || t + r == "" || IsStop((t + r)[0])
    ensures Untouched(p, a + x + t, "", r) <==> NoComments(Classes(x, Code)) && !Meets(p, r, Code)
  {
    hide Classes, Meets, EndMode, Tight, Rounded, NoComments, Inert, Closes;
    WhatStandsBetween(p, a, x, t, r);
    ClosingUp(p, a + x + t, r);
    var was := Classes(p + (a + x + t) + r, Code);
    assert NoComments(Classes(x, Code)) <==> NoComments(was[|p|..|p| + |a + x + t|]);
  }

  /** Closing up over what is taken out leaves the rest as it was, unless a slash meets what comes behind. */
  lemma ClosingUp(p: string, out: string, r: string)
    requires EndMode(p, Code) == Code
    requires var was := Classes(p + out + r, Code); was[..|p|] == Classes(p, Code)
    ensures var was := Classes(p + out + r, Code);
            && (Meets(p, r, Code) ==> !Untouched(p, out, "", r))
            && (!Meets(p, r, Code) && was[|p| + |out|..] == Classes(r, Code) ==>
                  (Untouched(p, out, "", r) <==> NoComments(was[|p|..|p| + |out|])))
  {
    hide Classes, EndMode, NoComments, Meets, Untouched;
    UntouchedWithout(p, out, r);
    var was := Classes(p + out + r, Code);
    if Meets(p, r, Code) {
      EndsInASlash(p, r);
      ASlashMeets(p, r, Code);
      assert (was[..|p|] + was[|p| + |out|..])[|p| - 1] == was[..|p|][|p| - 1];
    } else {
      CodeJoins(p, r, Code);
    }
  }

  lemma UntouchedWithout(p: string, out: string, r: string)
    ensures var was := Classes(p + out + r, Code);
            Untouched(p, out, "", r) <==>
              Classes(p + r, Code) == was[..|p|] + was[|p| + |out|..] && NoComments(was[|p|..|p| + |out|])
  {
    Nothing(Code);
    hide Classes, NoComments;
    assert p + "" + r == p + r;
    var was := Classes(p + out + r, Code);
    assert was[..|p|] + [] + was[|p| + |out|..] == was[..|p|] + was[|p| + |out|..];
  }

  lemma EndsInASlash(p: string, r: string)
    requires Meets(p, r, Code)
    ensures p != "" && |Classes(p, Code)| == |p| && Classes(p, Code)[|p| - 1] == Code
  {
  }

  /** What is taken out: spaces, the key, the gap before the value, the value and its trail. */
  lemma ThePieces(text: string, key: string)
    requires ValueSpan(text, key).Some?
    ensures var (b, e) := Removed(text, key);
            var (start, end) := ValueSpan(text, key).value;
            var h := Find(text, Code, Needle(key));
            && h.Some? && b <= h.value && h.value + |Needle(key)| <= start <= end <= e
            && text[h.value..h.value + |Needle(key)|] == Needle(key)
            && Quiet(text[b..h.value]) && Quiet(text[h.value + |Needle(key)|..start]) && Quiet(text[end..e])
  {
    hide Find, ValueSpan, Needle, Trail, Backed, Quiet;
    TakenOut(text, key);
    KeyIsBeforeItsValue(text, key);
    var h, end := Find(text, Code, Needle(key)).value, ValueSpan(text, key).value.1;
    var b, e := Backed(text[..h]), end + Trail(text[end..]);
    BackedIsQuiet(text[..h]);
    assert text[..h][b..] == text[b..h];
    TrailIsQuiet(text[end..]);
    assert text[end..][..Trail(text[end..])] == text[end..e];
    assert text[h..][..|Needle(key)|] == text[h..h + |Needle(key)|];
  }

  lemma WhatComesFirst(text: string, b: nat, h: nat, rest: string)
    requires b <= h < |text| && text[h] == '"' && Quiet(text[b..h]) && rest == text[b..]
    ensures !Meets(text[..b], rest, Code) || (b < h && text[b] == '*')
  {
    assert rest[0] == text[b];
    if b < h {
      assert text[b..h][0] == text[b];
    }
  }

  lemma SpacesAreNoStar(text: string, key: string)
    requires ValueSpan(text, key).Some?
    ensures var b, h := Removed(text, key).0, Find(text, Code, Needle(key)).value; b < h ==> text[b] != '*'
  {
    hide Find, ValueSpan, Needle, Trail, Backed;
    TakenOut(text, key);
    var h := Find(text, Code, Needle(key)).value;
    var b := Backed(text[..h]);
    BackedIsQuiet(text[..h]);
    assert b < h ==> text[b] == text[..h][b];
  }

  lemma TheKeyAndBlanksAreInert(text: string, key: string)
    requires ValueSpan(text, key).Some? && PlainKey(key)
    ensures var b, start := Removed(text, key).0, ValueSpan(text, key).value.0; b <= start && Inert(text[b..start])
  {
    hide Find, ValueSpan, Needle, Removed, Quiet, Inert, PlainKey;
    ThePieces(text, key);
    var b, h, start := Removed(text, key).0, Find(text, Code, Needle(key)).value, ValueSpan(text, key).value.0;
    var k := h + |Needle(key)|;
    QuietIsInert(text[b..h]);
    QuietIsInert(text[k..start]);
    AKeyIsInert(key);
    InertJoin(text[b..h], Needle(key));
    InertJoin(text[b..h] + Needle(key), text[k..start]);
    assert text[b..start] == text[b..h] + text[h..k] + text[k..start];
  }

  /**
    Taking a setting out leaves all the rest of the file and every comment as they were
    exactly when the editor's span holds no comment and no slash before it meets one, or a
    star, behind it; for every value that closes the strings it opens, as every string,
    array and object does, and everything else without a quote in it.
   */
  lemma RemovingTouchesNothingElseExactlyWhen(text: string, key: string)
    requires ValueSpan(text, key).Some? && PlainKey(key)
    ensures var (start, end) := ValueSpan(text, key).value;
            var (b, e) := Removed(text, key);
            && b <= e && WithoutKey(text, key) == Some(text[..b] + text[e..])
            && (Closes(text[start..end]) ==>
                  (Untouched(text[..b], text[b..e], "", text[e..])
                   <==> NoComments(Classes(text[start..end], Code)) && !Meets(text[..b], text[e..], Code)))
            && (Delimited(text[start]) || '"' !in text[start..end] ==> Closes(text[start..end]))
  {
    hide Find, ValueSpan, Needle, Removed, Inert, PlainKey, Closes, Rounded, Meets, NoComments, Classes, EndMode, Untouched;
    TakenOut(text, key);
    NothingMeetsTheKey(text, key);
    ThePiecesAreInert(text, key);
    BeforeIsInCode(text, key);
    var (start, end) := ValueSpan(text, key).value;
    var (b, e) := Removed(text, key);
    var p, a, x, t, r := text[..b], text[b..start], text[start..end], text[end..e], text[e..];
    SpanIsRounded(text, key);
    InPieces(text, b, start, end, e);
    ValuesClose(text, key);
    if Closes(x) {
      RemovalIsUntouchedExactlyWhen(p, a, x, t, r);
    }
  }

  lemma InPieces(text: string, b: nat, start: nat, end: nat, e: nat)
    requires b <= start <= end <= e <= |text|
    ensures text[end..e] + text[e..] == text[end..]
    ensures text[b..start] + (text[start..end] + (text[end..e] + text[e..])) == text[b..]
    ensures text[b..start] + text[start..end] + text[end..e] == text[b..e]
  {
  }

  lemma NothingMeetsTheKey(text: string, key: string)
    requires ValueSpan(text, key).Some?
    ensures var b := Removed(text, key).0; !Meets(text[..b], text[b..], Code)
  {
    hide Find, ValueSpan, Needle, Removed, Quiet, Meets;
    TakenOut(text, key);
    ThePieces(text, key);
    var b, h := Removed(text, key).0, Find(text, Code, Needle(key)).value;
    NeedleStarts(text, h, key);
    WhatComesFirst(text, b, h, text[b..]);
    SpacesAreNoStar(text, key);
  }

  lemma ThePiecesAreInert(text: string, key: string)
    requires ValueSpan(text, key).Some? && PlainKey(key)
    ensures var (b, e) := Removed(text, key);
            var (start, end) := ValueSpan(text, key).value;
            b <= start <= end <= e && Inert(text[b..start]) && Inert(text[end..e])
  {
    hide Find, ValueSpan, Needle, Removed, Quiet, Inert, PlainKey;
    ThePieces(text, key);
    TheKeyAndBlanksAreInert(text, key);
    QuietIsInert(text[ValueSpan(text, key).value.1..Removed(text, key).1]);
  }

  lemma NeedleStarts(text: string, h: nat, key: string)
    requires h + |Needle(key)| <= |text| && text[h..h + |Needle(key)|] == Needle(key)
    ensures h < |text| && text[h] == '"'
  {
    assert text[h..h + |Needle(key)|][0] == text[h];
  }

  lemma ValuesClose(text: string, key: string)
    requires ValueSpan(text, key).Some?
    ensures var (start, end) := ValueSpan(text, key).value;
            Delimited(text[start]) || '"' !in text[start..end] ==> Closes(text[start..end])
  {
    hide ValueSpan, EndMode, Classes, NoComments, Tight;
    var (start, end) := ValueSpan(text, key).value;
    SpanIsRounded(text, key);
    RoundedEnds(text[start..end]);
    if '"' !in text[start..end] && NoComments(Classes(text[start..end], Code)) {
      NoQuoteCloses(text[start..end], Code);
    }
  }

  // ------------------------------------------------------------ the other settings

  /** A key that starts in a text that ends in code ends in it. */
  lemma {:induction false} KeyFitsIn(t: string, r: string, other: string)
    requires EndMode(t, Quote) == Code && PlainKey(other) && other + "\"" <= t + r
    ensures |other| + 1 <= |t|
    decreases |t|
  {
    hide EndMode;
    var k := other + "\"";
    if t == "" {
      Nothing(Quote);
    } else {
      EndStep(t, Quote);
      assert (t + r)[0] == t[0] && (t + r)[..|k|][0] == k[0];
      if other != "" {
        assert other[0] in other && k[0] == other[0];
        assert k[1..] == other[1..] + "\"" && (t + r)[1..] == t[1..] + r;
        assert (t + r)[1..][..|k| - 1] == (t + r)[..|k|][1..];
        KeyFitsIn(t[1..], r, other[1..]);
      }
    }
  }

  lemma HitsInCode(p: string, r: string, r': string, m: Mode, other: string)
    requires p != "" && EndMode(p, m) == Code && PlainKey(other) && Hit(p + r, m, Needle(other))
    ensures Hit(p + r', m, Needle(other))
  {
    hide EndMode, PlainKey;
    var needle := Needle(other);
    EndStep(p, m);
    assert (p + r)[0] == p[0] && (p + r')[0] == p[0];
    assert (p + r)[1..] == p[1..] + r;
    NeedleAtStart(p + r, other);
    KeyFitsIn(p[1..], r, other);
    assert (p + r)[..|needle|] == p[..|needle|] == (p + r')[..|needle|];
  }

  /** In a text that ends in code a key is found whatever follows, or not at all. */
  predicate FoundAlike(p: string, r: string, r': string, m: Mode, needle: string) {
    if Find(p + r, m, needle).Some? && Find(p + r, m, needle).value < |p| then Find(p + r', m, needle) == Find(p + r, m, needle)
    else
      && Find(p + r, m, needle) == Shift(|p|, Find(r, Code, needle))
      && Find(p + r', m, needle) == Shift(|p|, Find(r', Code, needle))
  }

  lemma {:induction false} PrefixFinds(p: string, r: string, r': string, m: Mode, other: string)
    requires EndMode(p, m) == Code && PlainKey(other) && !Meets(p, r, m) && !Meets(p, r', m)
    ensures FoundAlike(p, r, r', m, Needle(other))
    decreases |p|
  {
    hide Find, Hit, Step, EndMode, Meets, FoundAlike, PlainKey, Needle;
    if p == "" {
      Nothing(m);
      assert p + r == r && p + r' == r';
      FoundAtTheEnd(r, r', Needle(other));
    } else {
      CodeStep(p, r, m);
      CodeStep(p, r', m);
      if Hit(p + r, m, Needle(other)) {
        HitsInCode(p, r, r', m, other);
        FoundHere(p, r, r', m, Needle(other));
      } else {
        if Hit(p + r', m, Needle(other)) {
          HitsInCode(p, r', r, m, other);
        }
        PrefixFinds(p[Step(p, m).1..], r, r', Step(p, m).0, other);
        FoundFurther(p, r, r', m, Needle(other));
      }
    }
  }

  lemma FoundAtTheEnd(r: string, r': string, needle: string)
    ensures FoundAlike("", r, r', Code, needle)
  {
    hide Find;
    assert "" + r == r && "" + r' == r';
  }

  lemma FoundHere(p: string, r: string, r': string, m: Mode, needle: string)
    requires p != "" && Hit(p + r, m, needle) && Hit(p + r', m, needle)
    ensures FoundAlike(p, r, r', m, needle)
  {
    hide Find, Step, Hit;
    FindStep(p + r, m, needle);
    FindStep(p + r', m, needle);
  }

  lemma FoundFurther(p: string, r: string, r': string, m: Mode, needle: string)
    requires p != "" && !Hit(p + r, m, needle) && !Hit(p + r', m, needle)
    requires Step(p + r, m) == Step(p, m) && Step(p + r', m) == Step(p, m)
    requires var (m', n) := Step(p, m); FoundAlike(p[n..], r, r', m', needle)
    ensures FoundAlike(p, r, r', m, needle)
  {
    hide Find, Step, Hit;
    var (m', n) := Step(p, m);
    FindStep(p + r, m, needle);
    FindStep(p + r', m, needle);
    assert (p + r)[n..] == p[n..] + r && (p + r')[n..] == p[n..] + r';
  }

  /** A setting whose value ends before another's key ends before the spaces in front of it. */
  lemma EndsBeforeTheSpaces(text: string, other: string, b: nat, h: nat)
    requires b <= h < |text| && text[h] == '"' && forall i :: b <= i < h ==> IsSpaceOrTab(text[i])
    requires ValueSpan(text, other).Some? && ValueSpan(text, other).value.1 <= h
    ensures var (start, end) := ValueSpan(text, other).value; start < b && (end < b || (Delimited(text[start]) && end == b))
  {
    hide Find, ToValue, ValueSpan, Needle;
    var (start, end) := ValueSpan(text, other).value;
    ASpansEnds(text, other);
  }

  /** A value starts with no blank, and ends with a quote or a bracket or before a stop. */
  lemma ASpansEnds(text: string, key: string)
    requires ValueSpan(text, key).Some?
    ensures var (start, end) := ValueSpan(text, key).value;
            && start < |text| && !IsBlank(text[start])
            && (Delimited(text[start]) ==> start < end && !IsSpaceOrTab(text[end - 1]))
            && (!Delimited(text[start]) ==> end == |text| || IsStop(text[end]))
  {
    hide Find, ToValue, ToClosing, ToQuote;
    var (start, end) := ValueSpan(text, key).value;
    var s := text[start..];
    assert s[0] == text[start];
    if s[0] == '[' || s[0] == '{' {
      ToClosingEnds(s, s[0], Closer(s[0]), 0, false, end - start);
      ABracketEndsTight(s[..end - start], s[0], Closer(s[0]), 0, false);
    } else if s[0] == '"' {
      ToQuoteEnds(s[1..], end - start - 1);
      AStringEndsTight(s[1..][..end - start - 1]);
    } else {
      assert end < |text| ==> s[end - start] == text[end];
    }
  }

  /** Taking a setting with a JSON value out leaves what every setting beside it reads as. */
  lemma RemovingDisturbsNoOtherSetting(text: string, key: string, was: Item, other: string)
    requires ValueSpan(text, key).Some? && FindValue(text, key) == Some(Render(was)) && Valid(was) && !Mentions(was, other)
    requires PlainKey(key) && PlainKey(other) && key != other && Beside(text, key, other)
    requires var (b, e) := Removed(text, key); !Meets(text[..b], text[e..], Code)
    ensures WithoutKey(text, key).Some? && FindValue(WithoutKey(text, key).value, other) == FindValue(text, other)
  {
    hide Find, ValueSpan, Needle, Removed, PlainKey, Meets, Valid, Mentions, Render, FindValue, FoundAlike;
    TakenOut(text, key);
    NothingMeetsTheKey(text, key);
    BeforeIsInCode(text, key);
    var (b, e) := Removed(text, key);
    var p, x, r := text[..b], text[b..], text[e..];
    assert p + x == text;
    PrefixFinds(p, x, r, Code, other);
    if Find(text, Code, Needle(other)).Some? && Find(text, Code, Needle(other)).value < b {
      BeforeTheRemoved(text, key, other, p + r);
    } else {
      BehindTheRemoved(text, key, was, other);
    }
  }

  lemma BeforeTheRemoved(text: string, key: string, other: string, text': string)
    requires ValueSpan(text, key).Some? && Beside(text, key, other)
    requires var (b, e) := Removed(text, key);
             && text' == text[..b] + text[e..] && Find(text, Code, Needle(other)).Some? && Find(text, Code, Needle(other)).value < b
             && FoundAlike(text[..b], text[b..], text[e..], Code, Needle(other))
    ensures FindValue(text', other) == FindValue(text, other)
  {
    hide *;
    var (b, e) := Removed(text, key);
    assert text[..b] + text[b..] == text && text'[..b] == text[..b];
    FoundAlikeBefore(text[..b], text[b..], text[e..], Needle(other));
    EndsBeforeTheCut(text, key, other);
    ReadInACommonStart(text, text', other, b);
  }

  lemma FoundAlikeBefore(p: string, r: string, r': string, needle: string)
    requires FoundAlike(p, r, r', Code, needle) && Find(p + r, Code, needle).Some? && Find(p + r, Code, needle).value < |p|
    ensures Find(p + r', Code, needle) == Find(p + r, Code, needle)
  {
  }

  lemma EndsBeforeTheCut(text: string, key: string, other: string)
    requires ValueSpan(text, key).Some? && Beside(text, key, other)
    requires Find(text, Code, Needle(other)).Some? && Find(text, Code, Needle(other)).value < Removed(text, key).0
    ensures ValueSpan(text, other).Some?
    ensures var (start, end) := ValueSpan(text, other).value;
            start < Removed(text, key).0 && (end < Removed(text, key).0 || (Delimited(text[start]) && end == Removed(text, key).0))
  {
    hide Find, ValueSpan, Needle, Removed, Quiet, IsSpaceOrTab;
    ThePieces(text, key);
    var b, h := Removed(text, key).0, Find(text, Code, Needle(key)).value;
    NeedleStarts(text, h, key);
    TheSpacesBefore(text, key);
    EndsBeforeTheSpaces(text, other, b, h);
  }

  lemma ReadInACommonStart(text: string, text': string, key: string, n: nat)
    requires ValueSpan(text, key).Some? && Find(text', Code, Needle(key)) == Find(text, Code, Needle(key))
    requires n <= |text| && n <= |text'| && text'[..n] == text[..n]
    requires var (start, end) := ValueSpan(text, key).value; start < n && (end < n || (Delimited(text[start]) && end == n))
    ensures FindValue(text', key) == FindValue(text, key)
  {
    hide Find, ValueSpan, Needle, FindValue, SpanAt;
    SpanWhereFound(text, key);
    SpanWhereFound(text', key);
    SpanAgain(text, text', Find(text, Code, Needle(key)).value, Needle(key), n);
    ReadInSpan(text, key);
    ReadInSpan(text', key);
    var (start, end) := ValueSpan(text, key).value;
    SameSlice(text, text', n, start, end);
  }

  lemma SameSlice(s: string, s': string, n: nat, i: nat, j: nat)
    requires i <= j <= n <= |s| && n <= |s'| && s[..n] == s'[..n]
    ensures s[i..j] == s'[i..j]
  {
    assert s[i..j] == s[..n][i..j] && s'[i..j] == s'[..n][i..j];
  }

  lemma TheSpacesBefore(text: string, key: string)
    requires ValueSpan(text, key).Some?
    ensures var b, h := Removed(text, key).0, Find(text, Code, Needle(key)).value;
            b <= h <= |text| && forall i :: b <= i < h ==> IsSpaceOrTab(text[i])
  {
    hide Find, ValueSpan, Needle, Trail, Backed;
    TakenOut(text, key);
    var h := Find(text, Code, Needle(key)).value;
    BackedIsQuiet(text[..h]);
    assert forall i :: Backed(text[..h]) <= i < h ==> text[i] == text[..h][i];
  }

  lemma BehindTheRemoved(text: string, key: string, was: Item, other: string)
    requires ValueSpan(text, key).Some? && FindValue(text, key) == Some(Render(was)) && Valid(was) && !Mentions(was, other)
    requires PlainKey(key) && PlainKey(other) && key != other
    requires var (b, e) := Removed(text, key);
             && FoundAlike(text[..b], text[b..], text[e..], Code, Needle(other))
             && !(Find(text, Code, Needle(other)).Some? && Find(text, Code, Needle(other)).value < b)
    ensures var (b, e) := Removed(text, key); FindValue(text[..b] + text[e..], other) == FindValue(text, other)
  {
    hide Find, ValueSpan, Needle, Removed, PlainKey, Valid, Mentions, Render, FindValue, Quiet;
    ThePieces(text, key);
    ReadInSpan(text, key);
    var (b, e) := Removed(text, key);
    var (start, end) := ValueSpan(text, key).value;
    var h := Find(text, Code, Needle(key)).value;
    var k := h + |Needle(key)|;
    var r, text' := text[e..], text[..b] + text[e..];
    assert text[..b] + text[b..] == text && text'[b..] == r;
    AnEntryIsPassed(text[b..h], key, text[k..start], was, text[end..e], r, other);
    Reassembled(text, b, h, k, start, end, e);
    ReadsAlike(text, e, text', b, Find(r, Code, Needle(other)), other);
  }

  lemma Reassembled(text: string, b: nat, h: nat, k: nat, start: nat, end: nat, e: nat)
    requires b <= h <= k <= start <= end <= e <= |text|
    ensures text[b..] == text[b..h] + (text[h..k] + (text[k..start] + (text[start..end] + (text[end..e] + text[e..]))))
  {
  }

  lemma {:induction false} SpacesAre(s: string, n: nat)
    requires n <= |s| && (forall i :: 0 <= i < n ==> IsSpaceOrTab(s[i])) && (n < |s| ==> !IsSpaceOrTab(s[n]))
    ensures Spaces(s) == n
  {
    if n > 0 {
      SpacesAre(s[1..], n - 1);
    }
  }

  /** Behind a value go the spaces, one comma, the spaces behind that and one end of line, each if it is there. */
  lemma TheTrailIs(a: string, i: nat, j: nat, k: nat, n: nat)
    requires i <= j <= k <= n <= |a|
    requires (forall x :: 0 <= x < i || j <= x < k ==> IsSpaceOrTab(a[x])) && (k < |a| ==> !IsSpaceOrTab(a[k]))
    requires if i < |a| && a[i] == ',' then j == i + 1 else j == i == k
    requires n == if k < |a| && a[k] == '\n' then k + 1 else k
    ensures Trail(a) == n
  {
    hide IsSpaceOrTab;
    SpacesAre(a, i) by { TheCommaIsNoSpace(a, i, k); }
    SpacesAre(a[j..], k - j);
    TrailSteps(a, i, j, k);
  }

  lemma TheCommaIsNoSpace(a: string, i: nat, k: nat)
    requires i <= k <= |a| && (i < |a| ==> a[i] == ',' || i == k) && (k < |a| ==> !IsSpaceOrTab(a[k]))
    ensures i < |a| ==> !IsSpaceOrTab(a[i])
  {
  }

  lemma TrailSteps(a: string, i: nat, j: nat, k: nat)
    requires i <= |a| && i == Spaces(a) && j == i + OneOf(a[i..], ',') && j <= |a| && k == j + Spaces(a[j..])
    ensures Trail(a) == k + OneOf(a[k..], '\n')
  {
    hide Spaces, OneOf;
  }
}
