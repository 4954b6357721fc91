/** Editing one setting with a JSON value leaves what every other setting reads as. */
module SettingsNeighbours {
  import opened Strings
  import opened Wrappers
  import opened Settings
  import opened SettingsEdits
  import opened SettingsValues

  function Raws(key: string): (ps: seq<Piece>)
    ensures PlainKey(key) ==> ValidPieces(ps)
  {
    seq(|key|, i requires 0 <= i < |key| => Raw(key[i]))
  }

  lemma {:induction false} RawsRender(key: string)
    ensures RenderPieces(Raws(key)) == key
    decreases |key|
  {
    if key != "" {
      assert Raws(key)[1..] == Raws(key[1..]);
      RawsRender(key[1..]);
    }
  }

  /** A key that is not the other one is passed over. */
  lemma AKeyIsPassed(key: string, r: string, other: string)
    requires PlainKey(key) && PlainKey(other) && key != other
    ensures Find(Needle(key) + r, Code, Needle(other)) == Shift(|Needle(key)|, Find(r, Code, Needle(other)))
  {
    hide Find;
    RawsRender(key);
    AStringIsScanned(Raws(key), r, other);
    assert Render(Text(Raws(key))) == Needle(key);
  }

  /** A whole entry is passed over. */
  lemma AnEntryIsPassed(a: string, key: string, b: string, item: Item, c: string, r: string, other: string)
    requires Quiet(a) && Quiet(b) && Quiet(c) && Valid(item) && !Mentions(item, other)
    requires PlainKey(key) && PlainKey(other) && key != other
    ensures Find(a + (Needle(key) + (b + (Render(item) + (c + r)))), Code, Needle(other))
            == Shift(|a| + |Needle(key)| + |b| + |Render(item)| + |c|, Find(r, Code, Needle(other)))
  {
    hide Find, Needle, Render, Quiet, Valid, Mentions, PlainKey;
    var needle := Needle(other);
    QuietIsPassed(a, Needle(key) + (b + (Render(item) + (c + r))), needle);
    AKeyIsPassed(key, b + (Render(item) + (c + r)), other);
    QuietIsPassed(b, Render(item) + (c + r), needle);
    AnItemIsScanned(item, c + r, other);
    QuietIsPassed(c, r, needle);
  }

  /** What is read where a key was found. */
  function ReadAt(text: string, i: nat, needle: string): Option<string>
    requires i + |needle| <= |text|
  {
    var span := SpanAt(text, i, needle);
    if span.None? then None else Some(text[span.value.0..span.value.1])
  }

  lemma ReadWhereFound(text: string, key: string)
    ensures var i := Find(text, Code, Needle(key));
            FindValue(text, key) == if i.None? then None else ReadAt(text, i.value, Needle(key))
  {
    hide Find, SpanAt, Needle;
  }

  /** What is found in a shared tail reads alike. */
  lemma TailReadsAlike(s: string, a: nat, t: string, b: nat, x: nat, needle: string)
    requires a <= |s| && b <= |t| && s[a..] == t[b..] && x + |needle| <= |s[a..]|
    ensures ReadAt(s, a + x, needle) == ReadAt(t, b + x, needle)
  {
    hide ToValue, ValueLength;
    var k := x + |needle|;
    SameTail(s, a, t, b, k);
    var v := ToValue(s[a + k..]);
    if v.Some? {
      var st := k + v.value;
      SameTail(s, a, t, b, st);
      var n := ValueLength(s[a + st..]);
      if n.Some? {
        assert s[a + st..a + st + n.value] == s[a + st..][..n.value];
        assert t[b + st..b + st + n.value] == t[b + st..][..n.value];
      }
    }
  }

  lemma SameTail(s: string, a: nat, t: string, b: nat, k: nat)
    requires a <= |s| && b <= |t| && s[a..] == t[b..] && k <= |s| - a
    ensures |t| - b == |s| - a && s[a + k..] == t[b + k..]
  {
    assert s[a + k..] == s[a..][k..] && t[b + k..] == t[b..][k..];
  }

  lemma ReadsAlike(s: string, a: nat, t: string, b: nat, x: Option<nat>, key: string)
    requires a <= |s| && b <= |t| && s[a..] == t[b..]
    requires x == Find(s[a..], Code, Needle(key))
    requires Find(s, Code, Needle(key)) == Shift(a, x) && Find(t, Code, Needle(key)) == Shift(b, x)
    ensures FindValue(s, key) == FindValue(t, key)
  {
    hide Find, ReadAt, Needle, FindValue;
    ReadWhereFound(s, key);
    ReadWhereFound(t, key);
    if x.Some? {
      TailReadsAlike(s, a, t, b, x.value, Needle(key));
    }
  }

  /** Adding an absent key right after a brace in code leaves every other setting as it was. */
  lemma AddingDisturbsNoOtherSetting(text: string, key: string, item: Item, other: string)
    requires Valid(item) && !Mentions(item, other)
    requires PlainKey(key) && PlainKey(other) && key != other
    requires ValueSpan(text, key).None? && Trim(text) != "" && OpensOutsideComments(text)
    requires HeadMode(text[..IndexOf(text, '{').value + 1], Code) == Some(Code)
    ensures Upsert(text, key, Render(item)).Ok?
    ensures FindValue(Upsert(text, key, Render(item)).value, other) == FindValue(text, other)
  {
    hide Find, ValueSpan, FindValue, HeadMode, Trim, Valid, Mentions, PlainKey, Quiet, Render, Entry;
    var o := IndexOf(text, '{').value + 1;
    var p, r := text[..o], text[o..];
    assert text == p + r;
    AnInsertedEntryDisturbsNothing(p, r, key, item, Separator(r), other);
  }

  lemma AnInsertedEntryDisturbsNothing(p: string, r: string, key: string, item: Item, sep: string, other: string)
    requires Valid(item) && !Mentions(item, other)
    requires PlainKey(key) && PlainKey(other) && key != other
    requires EndsInBrace(p) && HeadMode(p, Code) == Some(Code) && (sep == "\n" || sep == ",\n")
    ensures FindValue(p + Entry(key, Render(item), sep) + r, other) == FindValue(p + r, other)
  {
    hide Find, FindValue, HeadMode, Valid, Mentions, PlainKey, Quiet, Render, Entry, Needle, EndsInBrace;
    var e := Entry(key, Render(item), sep);
    QuietPieces(sep);
    EntryText(key, item, sep, r);
    AnEntryIsPassed("\n  ", key, ": ", item, sep, r, other);
    HeadIsScannedAlike(p, r, Code, Needle(other));
    HeadIsScannedAlike(p, e + r, Code, Needle(other));
    Regrouped(p, e, r);
    ReadsAlike(p + r, |p|, p + e + r, |p| + |e|, Find(r, Code, Needle(other)), other);
  }

  lemma Regrouped(p: string, e: string, r: string)
    ensures p + e + r == p + (e + r) && (p + r)[|p|..] == r && (p + e + r)[|p| + |e|..] == r
  {
  }

  lemma QuietPieces(sep: string)
    requires sep == "\n" || sep == ",\n"
    ensures Quiet("\n  ") && Quiet(": ") && Quiet(sep)
  {
  }

  lemma EntryText(key: string, item: Item, sep: string, r: string)
    ensures Entry(key, Render(item), sep) + r == "\n  " + (Needle(key) + (": " + (Render(item) + (sep + r))))
    ensures |Entry(key, Render(item), sep)| == |"\n  "| + |Needle(key)| + |": "| + |Render(item)| + |sep|
  {
    hide Render;
  }

  // ------------------------------------------------------------ replacing

  /** From inside a string, a key cannot reach past the next place where something is found. */
  lemma {:induction false} AKeyEndsWithItsString(s: string, s': string, needle: string, other: string)
    requires Find(s, Quote, needle).Some? && PlainKey(other)
    requires Find(s, Quote, needle).value <= |s'| && s[..Find(s, Quote, needle).value] == s'[..Find(s, Quote, needle).value]
    requires other + "\"" <= s'
    ensures |other| + 1 <= Find(s, Quote, needle).value
    decreases |other|
  {
    hide Find;
    var h := Find(s, Quote, needle).value;
    FindStep(s, Quote, needle);
    if other != "" {
      assert s[0] == s[..h][0] && s'[0] == s'[..h][0];
      assert s'[0] == s'[..|other| + 1][0] == (other + "\"")[0] == other[0];
      assert other[0] in other;
      assert s'[1..][..|other|] == s'[..|other| + 1][1..] && (other + "\"")[1..] == other[1..] + "\"";
      assert s[1..][..h - 1] == s[..h][1..] && s'[1..][..h - 1] == s'[..h][1..];
      AKeyEndsWithItsString(s[1..], s'[1..], needle, other[1..]);
    }
  }

  /** Before h a needle is found at the same place in both, or in neither, and then the scan is in code at h. */
  predicate Alike(s: string, s': string, m: Mode, h: nat, needle: string)
    requires h <= |s'|
  {
    var g := Find(s, m, needle);
    if g.Some? && g.value < h then Find(s', m, needle) == g
    else Find(s', m, needle) == Shift(h, Find(s'[h..], Code, needle))
  }

  /** Up to where one key is found, another is found alike in two texts that start alike. */
  lemma {:induction false} BeforeTheKey(s: string, s': string, m: Mode, needle: string, other: string)
    requires |needle| >= 2 && PlainKey(other) && Find(s, m, needle).Some?
    requires var n := Find(s, m, needle).value + |needle|; n <= |s'| && s[..n] == s'[..n]
    ensures Alike(s, s', m, Find(s, m, needle).value, Needle(other))
    decreases |s|
  {
    hide Find, Hit, Step, Needle, PlainKey, Alike;
    var h := Find(s, m, needle).value;
    var n := h + |needle|;
    FindStep(s, m, needle);
    if Hit(s, m, needle) {
      HitIsInCode(s, m, needle);
      AlikeHere(s, s', Needle(other));
    } else {
      SameStart(s, s', m, needle, n);
      HitsAlike(s, s', m, needle, other);
      if Hit(s, m, Needle(other)) {
        AlikeWhereHit(s, s', m, h, Needle(other));
      } else {
        var (m', k) := Step(s, m);
        SlicesAgree(s, s', n, k);
        BeforeTheKey(s[k..], s'[k..], m', needle, other);
        AlikeAfterAStep(s, s', m, h, Needle(other));
      }
    }
  }

  lemma AlikeHere(s: string, s': string, needle: string)
    ensures Alike(s, s', Code, 0, needle)
  {
    hide Find;
    assert s'[0..] == s';
  }

  lemma AlikeWhereHit(s: string, s': string, m: Mode, h: nat, needle: string)
    requires 0 < h <= |s'| && Hit(s, m, needle) && Hit(s', m, needle)
    ensures Alike(s, s', m, h, needle)
  {
    hide Find, Step;
    FindStep(s, m, needle);
    FindStep(s', m, needle);
  }

  lemma AlikeAfterAStep(s: string, s': string, m: Mode, h: nat, needle: string)
    requires s != "" && s' != "" && h <= |s'| && !Hit(s, m, needle) && !Hit(s', m, needle) && Step(s, m) == Step(s', m)
    requires Step(s, m).1 <= h
    requires var (m', k) := Step(s, m); Alike(s[k..], s'[k..], m', h - k, needle)
    ensures Alike(s, s', m, h, needle)
  {
    hide Find, Hit, Step;
    var (m', k) := Step(s, m);
    FindStep(s, m, needle);
    FindStep(s', m, needle);
    TailOfTail(s', k, h - k);
  }

  lemma SlicesAgree(s: string, s': string, n: nat, k: nat)
    requires k <= n <= |s| && n <= |s'| && s[..n] == s'[..n]
    ensures s[k..][..n - k] == s'[k..][..n - k]
  {
    assert s[k..][..n - k] == s[..n][k..] && s'[k..][..n - k] == s'[..n][k..];
  }

  lemma HitIsInCode(s: string, m: Mode, needle: string)
    requires Hit(s, m, needle)
    ensures m == Code
  {
  }

  lemma HitsAlike(s: string, s': string, m: Mode, needle: string, other: string)
    requires |needle| >= 2 && PlainKey(other) && Find(s, m, needle).Some? && !Hit(s, m, needle)
    requires var n := Find(s, m, needle).value + |needle|; n <= |s'| && s[..n] == s'[..n]
    ensures Hit(s, m, Needle(other)) <==> Hit(s', m, Needle(other))
  {
    hide Find;
    var h := Find(s, m, needle).value;
    var n := h + |needle|;
    FindStep(s, m, needle);
    assert s[0] == s[..n][0] && s'[0] == s'[..n][0];
    if m == Code && s[0] == '"' {
      var t, t' := s[1..], s'[1..];
      SlicesAgree(s, s', n, 1);
      Prefixes(t, t', n - 1, h - 1);
      AKeyInBoth(t, t', needle, other);
      AKeyInBoth(t, t, needle, other);
      NeedleAtStart(s, other);
      NeedleAtStart(s', other);
    }
  }

  lemma NeedleAtStart(s: string, other: string)
    requires s != "" && s[0] == '"'
    ensures Needle(other) <= s <==> other + "\"" <= s[1..]
  {
    var needle := Needle(other);
    assert needle[1..] == other + "\"";
    if |needle| <= |s| {
      assert s[1..][..|needle| - 1] == s[..|needle|][1..];
      assert s[..|needle|] == [s[0]] + s[1..][..|needle| - 1] && needle == [needle[0]] + needle[1..];
    }
  }

  lemma AKeyInBoth(t: string, t': string, needle: string, other: string)
    requires Find(t, Quote, needle).Some? && PlainKey(other)
    requires Find(t, Quote, needle).value <= |t'| && t[..Find(t, Quote, needle).value] == t'[..Find(t, Quote, needle).value]
    ensures other + "\"" <= t <==> other + "\"" <= t'
  {
    hide Find;
    var h := Find(t, Quote, needle).value;
    var k := |other| + 1;
    if other + "\"" <= t {
      AKeyEndsWithItsString(t, t, needle, other);
      assert t'[..k] == t'[..h][..k] == t[..h][..k] == t[..k];
    }
    if other + "\"" <= t' {
      AKeyEndsWithItsString(t, t', needle, other);
      assert t'[..k] == t'[..h][..k] == t[..h][..k] == t[..k];
    }
  }

  lemma {:induction false} ToQuoteEnds(s: string, k: nat)
    requires ToQuote(s) == Some(k)
    ensures ToQuote(s[..k]) == Some(k)
    decreases |s|
  {
    var n := if s[0] == '\\' then 2 else 1;
    if !(s[0] == '"') {
      ToQuoteEnds(s[n..], k - n);
      assert s[..k][n..] == s[n..][..k - n];
    }
  }

  lemma {:induction false} ToClosingEnds(s: string, open: char, close: char, depth: int, q: bool, k: nat)
    requires ToClosing(s, open, close, depth, q) == Some(k)
    ensures ToClosing(s[..k], open, close, depth, q) == Some(k)
    decreases |s|
  {
    var n := if q && s[0] == '\\' then 2 else 1;
    if q || s[0] == '"' || s[0] == open || s[0] != close || depth != 1 {
      var q' := if q then s[0] == '\\' || s[0] != '"' else s[0] == '"';
      var depth' := if q || s[0] == '"' then depth else if s[0] == open then depth + 1 else if s[0] == close then depth - 1 else depth;
      ToClosingEnds(s[n..], open, close, depth', q', k - n);
      assert s[..k][n..] == s[n..][..k - n];
    }
  }

  lemma PlainlyAgain(s: string, s': string, n: nat)
    requires Plainly(s) < n <= |s| && n <= |s'| && s[..n] == s'[..n]
    ensures Plainly(s') == Plainly(s)
  {
    var k := Plainly(s);
    assert forall i :: 0 <= i <= k ==> s[i] == s[..n][i] == s'[..n][i] == s'[i];
  }

  /** A value that ends inside a common start ends there in both. */
  lemma LengthAgain(s: string, s': string, n: nat)
    requires s != "" && ValueLength(s).Some? && 0 < n <= |s| && n <= |s'| && s[..n] == s'[..n]
    requires ValueLength(s).value < n || (Delimited(s[0]) && ValueLength(s).value == n)
    ensures ValueLength(s') == ValueLength(s)
  {
    var k := ValueLength(s).value;
    assert s[0] == s[..n][0] && s'[0] == s'[..n][0];
    assert s[..k] == s[..n][..k] && s'[..k] == s'[..n][..k];
    assert s[..k] + s'[k..] == s';
    if s[0] == '[' || s[0] == '{' {
      ToClosingEnds(s, s[0], Closer(s[0]), 0, false, k);
      ToClosingStays(s[..k], s'[k..], s[0], Closer(s[0]), 0, false);
    } else if s[0] == '"' {
      ToQuoteEnds(s[1..], k - 1);
      assert s[1..][..k - 1] == s[..k][1..] && s[..k][1..] + s'[k..] == s'[1..];
      ToQuoteStays(s[1..][..k - 1], s'[k..]);
    } else {
      PlainlyAgain(s, s', n);
    }
  }

  lemma SpanAgain(s: string, s': string, i: nat, needle: string, n: nat)
    requires i + |needle| <= |s| && SpanAt(s, i, needle).Some? && SpanAt(s, i, needle).value.0 < n
    requires var (a, b) := SpanAt(s, i, needle).value; b < n || (Delimited(s[a]) && b == n)
    requires n <= |s| && n <= |s'| && s[..n] == s'[..n]
    ensures SpanAt(s', i, needle) == SpanAt(s, i, needle)
  {
    hide ToValue, ValueLength, Blanks, IsBlank;
    var (a, b) := SpanAt(s, i, needle).value;
    var k := i + |needle|;
    SlicesAgree(s, s', n, k);
    SlicesAgree(s, s', n, a);
    assert s[k..][..a - k] == s[k..][..n - k][..a - k] && s'[k..][..a - k] == s'[k..][..n - k][..a - k];
    assert s[a] == s[..n][a] && s'[a] == s'[..n][a];
    ToValueAgain(s[k..], s'[k..], a - k);
    LengthAgain(s[a..], s'[a..], n - a);
  }

  lemma GapIsQuiet(u: string, a: nat)
    requires ToValue(u) == Some(a)
    ensures Quiet(u[..a])
  {
    hide Blanks;
    var j := Blanks(u);
    assert forall i :: j < i < a ==> u[i] == u[j + 1..][i - j - 1];
  }

  /** Where another setting is, seen from the one that is edited: after it, or wholly before its key. */
  predicate Beside(text: string, key: string, other: string) {
    var h, g := Find(text, Code, Needle(key)), Find(text, Code, Needle(other));
    h.Some? && (g.None? || g.value >= h.value || (ValueSpan(text, other).Some? && ValueSpan(text, other).value.1 <= h.value))
  }

  /** After an entry, the other key is found where it was found after the value. */
  lemma AfterTheEntry(text: string, h: nat, start: nat, end: nat, key: string, item: Item, other: string)
    requires h + |Needle(key)| <= start <= end <= |text| && Needle(key) <= text[h..]
    requires text[start..end] == Render(item) && Quiet(text[h + |Needle(key)|..start])
    requires Valid(item) && !Mentions(item, other) && PlainKey(key) && PlainKey(other) && key != other
    ensures Find(text[h..], Code, Needle(other)) == Shift(end - h, Find(text[end..], Code, Needle(other)))
  {
    hide Find, Needle, Render, Valid, Mentions, PlainKey, Quiet;
    var k := h + |Needle(key)|;
    var gap, r := text[k..start], text[end..];
    NothingIsQuiet();
    AnEntryIsPassed("", key, gap, item, "", r, other);
    Assembled(text, h, k, start, end);
    assert text[h..k] == Needle(key);
    assert "" + r == r && "" + text[h..] == text[h..];
  }

  lemma NothingIsQuiet()
    ensures Quiet("")
  {
  }

  lemma Assembled(text: string, h: nat, k: nat, start: nat, end: nat)
    requires h <= k <= start <= end <= |text|
    ensures text[h..] == text[h..k] + (text[k..start] + (text[start..end] + text[end..]))
  {
  }

  /** Replacing a JSON value by another leaves every setting beside it as it was. */
  lemma ReplacingDisturbsNoOtherSetting(text: string, key: string, was: Item, item: Item, other: string)
    requires ValueSpan(text, key).Some? && FindValue(text, key) == Some(Render(was))
    requires Valid(was) && Valid(item) && !Mentions(was, other) && !Mentions(item, other)
    requires PlainKey(key) && PlainKey(other) && key != other && Beside(text, key, other)
    ensures FindValue(Upsert(text, key, Render(item)).value, other) == FindValue(text, other)
  {
    hide Find, ValueSpan, Needle, Render, Valid, Mentions, PlainKey, FindValue, WellFormed;
    var (start, end) := ValueSpan(text, key).value;
    var v := Render(item);
    var text' := text[..start] + v + text[end..];
    if Find(text, Code, Needle(other)).Some? && Find(text, Code, Needle(other)).value < Find(text, Code, Needle(key)).value {
      SettingBeforeStays(text, text', key, start, other);
    } else {
      SettingAfterStays(text, text', key, was, item, other);
    }
  }

  lemma KeyIsBeforeItsValue(text: string, key: string)
    requires ValueSpan(text, key).Some?
    ensures var h := Find(text, Code, Needle(key));
            && h.Some? && |Needle(key)| >= 2 && h.value + |Needle(key)| < ValueSpan(text, key).value.0
            && Needle(key) <= text[h.value..]
            && Quiet(text[h.value + |Needle(key)|..ValueSpan(text, key).value.0])
  {
    hide Find, ToValue, ValueLength, Quiet;
    var k := Find(text, Code, Needle(key)).value + |Needle(key)|;
    var a := ToValue(text[k..]).value;
    GapIsQuiet(text[k..], a);
    assert text[k..][..a] == text[k..k + a];
  }

  lemma SettingBeforeStays(text: string, text': string, key: string, start: nat, other: string)
    requires ValueSpan(text, key).Some? && start == ValueSpan(text, key).value.0 && PlainKey(other)
    requires start <= |text'| && text[..start] == text'[..start]
    requires ValueSpan(text, other).Some? && ValueSpan(text, other).value.1 <= Find(text, Code, Needle(key)).value
    requires Find(text, Code, Needle(other)).Some? && Find(text, Code, Needle(other)).value < Find(text, Code, Needle(key)).value
    ensures FindValue(text', other) == FindValue(text, other)
  {
    hide Find, SpanAt, Needle, PlainKey, ValueSpan, FindValue;
    KeyIsBeforeItsValue(text, key);
    Prefixes(text, text', start, Find(text, Code, Needle(key)).value + |Needle(key)|);
    BeforeTheKey(text, text', Code, Needle(key), other);
    var g := Find(text, Code, Needle(other)).value;
    SpanWhereFound(text, other);
    SpanWhereFound(text', other);
    SpanAgain(text, text', g, Needle(other), start);
    var (a, b) := ValueSpan(text, other).value;
    assert text[..start][a..b] == text[a..b] && text'[..start][a..b] == text'[a..b];
    ReadInSpan(text, other);
    ReadInSpan(text', other);
  }

  lemma Prefixes(s: string, s': string, n: nat, k: nat)
    requires k <= n <= |s| && n <= |s'| && s[..n] == s'[..n]
    ensures s[..k] == s'[..k]
  {
    assert s[..k] == s[..n][..k] && s'[..k] == s'[..n][..k];
  }

  lemma ReadInSpan(text: string, key: string)
    ensures var span := ValueSpan(text, key);
            FindValue(text, key) == if span.None? then None else Some(text[span.value.0..span.value.1])
  {
    hide ValueSpan;
  }

  lemma SettingAfterStays(text: string, text': string, key: string, was: Item, item: Item, other: string)
    requires ValueSpan(text, key).Some? && FindValue(text, key) == Some(Render(was))
    requires var (start, end) := ValueSpan(text, key).value; text' == text[..start] + Render(item) + text[end..]
    requires Valid(was) && Valid(item) && !Mentions(was, other) && !Mentions(item, other)
    requires PlainKey(key) && PlainKey(other) && key != other
    requires var h, g := Find(text, Code, Needle(key)), Find(text, Code, Needle(other)); g.None? || g.value >= h.value
    ensures FindValue(text', other) == FindValue(text, other)
  {
    hide *;
    var (start, end) := ValueSpan(text, key).value;
    var v := Render(item);
    ReadInSpan(text, key);
    Edited(text, start, v, end);
    FoundBehindTheValue(text, text, key, start, end, was, other);
    FoundBehindTheValue(text, text', key, start, start + |v|, item, other);
    ReadsAlike(text, end, text', start + |v|, Find(text[end..], Code, Needle(other)), other);
  }

  /** A key that is not before another is found behind that one's value, whichever value stands there. */
  lemma FoundBehindTheValue(text: string, text': string, key: string, start: nat, end: nat, item: Item, other: string)
    requires ValueSpan(text, key).Some? && start == ValueSpan(text, key).value.0
    requires start <= end <= |text'| && text[..start] == text'[..start] && text'[start..end] == Render(item)
    requires Valid(item) && !Mentions(item, other) && PlainKey(key) && PlainKey(other) && key != other
    requires var h, g := Find(text, Code, Needle(key)), Find(text, Code, Needle(other)); g.None? || g.value >= h.value
    ensures Find(text', Code, Needle(other)) == Shift(end, Find(text'[end..], Code, Needle(other)))
  {
    hide *;
    SameUntilTheValue(text, text', key, start);
    NotBeforeTheKey(text, text', key, start, other);
    FoundBehindTheEntry(text', Find(text, Code, Needle(key)).value, start, end, key, item, other);
  }

  lemma FoundBehindTheEntry(text: string, h: nat, start: nat, end: nat, key: string, item: Item, other: string)
    requires h + |Needle(key)| <= start <= end <= |text| && Needle(key) <= text[h..]
    requires text[start..end] == Render(item) && Quiet(text[h + |Needle(key)|..start])
    requires Valid(item) && !Mentions(item, other) && PlainKey(key) && PlainKey(other) && key != other
    requires Find(text, Code, Needle(other)) == Shift(h, Find(text[h..], Code, Needle(other)))
    ensures Find(text, Code, Needle(other)) == Shift(end, Find(text[end..], Code, Needle(other)))
  {
    hide *;
    AfterTheEntry(text, h, start, end, key, item, other);
    ShiftedTwice(h, end - h, Find(text[end..], Code, Needle(other)));
  }

  lemma ShiftedTwice(a: nat, b: nat, x: Option<nat>)
    ensures Shift(a, Shift(b, x)) == Shift(a + b, x)
  {
  }

  lemma Edited(text: string, start: nat, v: string, end: nat)
    requires start <= end <= |text|
    ensures var text' := text[..start] + v + text[end..];
            && text'[..start] == text[..start] && text'[start..start + |v|] == v && text'[start + |v|..] == text[end..]
  {
  }

  lemma NotBeforeTheKey(text: string, text': string, key: string, start: nat, other: string)
    requires ValueSpan(text, key).Some? && start == ValueSpan(text, key).value.0 && PlainKey(other)
    requires start <= |text'| && text[..start] == text'[..start]
    requires var h, g := Find(text, Code, Needle(key)), Find(text, Code, Needle(other)); g.None? || g.value >= h.value
    ensures var h := Find(text, Code, Needle(key));
            h.Some? && h.value <= start && Find(text', Code, Needle(other)) == Shift(h.value, Find(text'[h.value..], Code, Needle(other)))
  {
    hide Find, Needle, PlainKey, ValueSpan, Quiet;
    KeyIsBeforeItsValue(text, key);
    Prefixes(text, text', start, Find(text, Code, Needle(key)).value + |Needle(key)|);
    BeforeTheKey(text, text', Code, Needle(key), other);
  }

  lemma SameUntilTheValue(text: string, text': string, key: string, start: nat)
    requires ValueSpan(text, key).Some? && start == ValueSpan(text, key).value.0
    requires start <= |text'| && text[..start] == text'[..start]
    ensures var h := Find(text, Code, Needle(key));
            && h.Some? && h.value + |Needle(key)| <= start
            && Needle(key) <= text'[h.value..] && Quiet(text'[h.value + |Needle(key)|..start])
  {
    hide *;
    KeyIsBeforeItsValue(text, key);
    SameKeyAndGap(text, text', Find(text, Code, Needle(key)).value, Needle(key), start);
  }

  lemma SameKeyAndGap(s: string, s': string, h: nat, needle: string, start: nat)
    requires h + |needle| <= start <= |s| && start <= |s'| && s[..start] == s'[..start] && needle <= s[h..]
    ensures s[h + |needle|..start] == s'[h + |needle|..start] && needle <= s'[h..]
  {
    var k := h + |needle|;
    assert s[k..start] == s[..start][k..] && s'[k..start] == s'[..start][k..];
    assert needle == s[h..][..|needle|] == s[..start][h..k] == s'[..start][h..k] == s'[h..][..|needle|];
  }
}
