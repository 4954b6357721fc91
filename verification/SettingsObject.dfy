/**
  What an edit writes, read with comments and brackets as such: when the new value is the
  value of a setting of the outermost object.
 */
module SettingsObject {
  import opened Strings
  import opened Wrappers
  import opened Settings
  import opened SettingsEdits
  import opened SettingsValues
  import opened SettingsNeighbours
  import opened SettingsComments
  import opened SettingsFinding

  /** The brackets that are open after s. */
  function Opens(s: string, m: Mode, open: string): string
    decreases |s|
  {
    if s == "" then open else var (m', n) := Step(s, m); Opens(s[n..], m', Opened(s, m, open))
  }

  /** A text that ends in its first brace. */
  predicate Head(p: string) {
    EndsInBrace(p) && forall i :: 0 <= i < |p| - 1 ==> p[i] != '{'
  }

  /** That brace opens the outermost object: it is in code, with no bracket open before it. */
  predicate OpensTheObject(p: string) {
    EndMode(p, Code) == Code && Opens(p, Code, "") == "{"
  }

  // ------------------------------------------------------------ the value that is written

  /** A value without comments is ended by the comment-aware matcher where the editor ends it. */
  lemma {:induction false} BalancedAsMatched(s: string, square: bool, depth: int, m: Mode)
    requires ToClosing(s, Open(square), Close(square), depth, m == Quote).Some?
    requires var n := ToClosing(s, Open(square), Close(square), depth, m == Quote).value;
             Silent(s, Classes(s, m), n, Open(square), Close(square))
    ensures Balanced(s, Open(square), Close(square), depth, m) == ToClosing(s, Open(square), Close(square), depth, m == Quote)
    decreases |s|
  {
    hide Classes, EndMode, Balanced, ToClosing, Silent, Step;
    var open, close := Open(square), Close(square);
    var n := ToClosing(s, open, close, depth, m == Quote).value;
    if s == "" || (m == Code && s[0] == close && depth == 1) {
      TheMatchersEndAlike(s, open, close, depth, m);
    } else {
      var (m', k) := Step(s, m);
      FirstIsSilent(s, m, n, open, close);
      StepOfTheMatcher(s, open, close, depth, m);
      SilentSteps(s, m, n, open, close);
      BalancedStep(s, open, close, depth, m);
      BalancedAsMatched(s[k..], square, DepthOf(s, open, close, depth, m), m');
    }
  }

  lemma FirstIsSilent(s: string, m: Mode, n: nat, open: char, close: char)
    requires s != "" && 1 <= n <= |s| && Silent(s, Classes(s, m), n, open, close)
    ensures (m == Block || (m == Line && s[0] != '\n')) ==> s[0] != '"' && s[0] != open && s[0] != close
  {
    hide Classes, EndMode, Step;
    EndStep(s, m);
    if m == Block || (m == Line && s[0] != '\n') {
      FirstClass(s, m);
      assert Classes(s, m)[0] == m;
    }
  }

  /** What is written is ended right whatever follows it. */
  lemma WrittenIsWhole(item: Item, r: string)
    requires Valid(item) && (item.Text? || item.Group?)
    ensures TrueLength(Render(item) + r) == Some(|Render(item)|)
  {
    hide Classes, EndMode, Balanced, ToClosing, Tight, ValueLength, Render, Valid;
    var v := Render(item);
    JsonIsWellFormed(item);
    StartsLikeAValue(item);
    assert v != "" && (v + r)[0] == v[0];
    LengthStays(v, r);
    if v[0] != '"' {
      AnItemIsInert(item);
      InertIsSilent(v, r);
      ABracketsLength(v + r, |v|);
      assert v[0] == Open(v[0] == '[') && Closer(v[0]) == Close(v[0] == '[');
      BalancedAsMatched(v + r, v[0] == '[', 0, Code);
    }
  }

  lemma StartsLikeAValue(item: Item)
    requires Valid(item) && (item.Text? || item.Group?)
    ensures Render(item) != "" && Delimited(Render(item)[0]) && !IsBlank(Render(item)[0]) && Render(item)[0] != '/'
  {
  }

  lemma ABracketsLength(s: string, n: nat)
    requires s != "" && (s[0] == '[' || s[0] == '{') && ValueLength(s) == Some(n)
    ensures ToClosing(s, s[0], Closer(s[0]), 0, false) == Some(n)
  {
  }

  lemma InertIsSilent(v: string, r: string)
    requires Inert(v) && v != ""
    ensures Silent(v + r, Classes(v + r, Code), |v|, v[0], Closer(v[0]))
  {
    hide Classes, EndMode, Tight;
    Joined(v, r, Code);
    assert forall i :: 0 <= i < |v| ==> Classes(v + r, Code)[i] == Classes(v, Code)[i];
  }

  // ------------------------------------------------------------ from the head to the key

  lemma OpenedAlike(s: string, s': string, m: Mode, open: string)
    requires s != "" && s' != "" && s[0] == s'[0]
    ensures Opened(s, m, open) == Opened(s', m, open)
  {
  }

  lemma NoBraceOpened(s: string, m: Mode, open: string)
    requires s != "" && (s[0] != '{' || m != Code) && '{' !in open
    ensures '{' !in Opened(s, m, open)
  {
  }

  lemma HeadTail(p: string, n: nat)
    requires Head(p) && 1 <= n <= |p|
    ensures p[n..] == "" || Head(p[n..])
    ensures n < |p| ==> p[0] != '{'
  {
    assert n < |p| ==> p[n..][|p| - n - 1] == p[|p| - 1];
  }

  /** No setting is read in a head, because no object is open in it. */
  lemma {:induction false} PastTheHead(p: string, w: string, m: Mode, open: string, needle: string)
    requires p == "" || (Head(p) && '{' !in open)
    ensures Setting(p + w, m, open, needle) == Shift(|p|, Setting(w, EndMode(p, m), Opens(p, m, open), needle))
    decreases |p|
  {
    hide Setting, Step, Head, Opened, Hit, IsKey, Tight;
    if p == "" {
      assert p + w == w;
    } else {
      var (m', n) := Step(p, m);
      HeadIsTight(p, m);
      TightSteps(p, w, m);
      SettingStep(p + w, m, open, needle);
      OpenedAlike(p, p + w, m, open);
      HeadTail(p, n);
      if n < |p| {
        NoBraceOpened(p, m, open);
      }
      PastTheHead(p[n..], w, m', Opened(p, m, open), needle);
    }
  }

  lemma HeadIsTight(p: string, m: Mode)
    requires Head(p)
    ensures p != "" && Tight(p, m)
  {
    ABraceIsTight(p, m);
  }

  /** A brace that is not in code opens nothing. */
  lemma {:induction false} ACommentedBraceOpensNothing(p: string, m: Mode, open: string)
    requires Head(p) && '{' !in open && EndMode(p, m) != Code
    ensures '{' !in Opens(p, m, open)
    decreases |p|
  {
    hide Opened, Head;
    HeadIsTight(p, m);
    var (m', n) := Step(p, m);
    HeadTail(p, n);
    if n < |p| {
      NoBraceOpened(p, m, open);
      ACommentedBraceOpensNothing(p[n..], m', Opened(p, m, open));
    } else {
      LastToken(p, m);
      NoBraceOpened(p, m, open);
    }
  }

  lemma LastToken(p: string, m: Mode)
    requires Head(p) && Step(p, m).1 == |p| && EndMode(p, m) != Code
    ensures p[0] != '{' || m != Code
  {
    if |p| == 1 {
      assert p[1..] == "";
    }
  }

  /** The entry's indent is blank in code, and ends a line comment. */
  lemma PastTheIndent(w: string, m: Mode, open: string, needle: string)
    ensures Setting("\n" + (" " + (" " + w)), m, open, needle)
            == Shift(3, Setting(w, if m == Line then Code else m, open, needle))
  {
    hide Setting, IsKey;
    PastASpace("\n", " " + (" " + w), m, open, needle);
    var m' := if m == Line then Code else m;
    PastASpace(" ", " " + w, m', open, needle);
    PastASpace(" ", w, m', open, needle);
  }

  lemma PastASpace(c: string, w: string, m: Mode, open: string, needle: string)
    requires c == "\n" || c == " "
    ensures Setting(c + w, m, open, needle)
            == Shift(1, Setting(w, if c == "\n" && m == Line then Code else m, open, needle))
  {
    hide Setting, IsKey;
    SettingStep(c + w, m, open, needle);
    assert (c + w)[1..] == w;
  }

  /** The entry's key is read there exactly when it stands in code in the outermost object. */
  lemma TheEntryIsRead(key: string, value: string, separator: string, r: string, m: Mode, open: string)
    requires value != "" && !IsBlank(value[0]) && value[0] != '/'
    ensures Setting(FromKey(key, value, separator, r), m, open, Needle(key)) == Some(0) <==> m == Code && open == "{"
    ensures ValueAfter(FromKey(key, value, separator, r)[|Needle(key)|..]) == Some(2)
  {
    hide Setting, ValueAfter;
    var w := FromKey(key, value, separator, r);
    var u := ": " + (value + (separator + r));
    assert w == Needle(key) + u && w[|Needle(key)|..] == u;
    ColonAndSpace(u, value + (separator + r));
    SettingStep(w, m, open, Needle(key));
  }

  lemma ColonAndSpace(u: string, v: string)
    requires u == ": " + v && v != "" && !IsBlank(v[0]) && v[0] != '/'
    ensures ValueAfter(u) == Some(2)
  {
    hide Passed;
    assert u[1..] == " " + v;
    assert Passed(u, Code) == 0 by { NothingPassed(u); }
    assert Passed(" " + v, Code) == 1 by { ABlankPassed(v); }
  }

  lemma NothingPassed(s: string)
    requires s != "" && !IsBlank(s[0]) && s[0] != '/'
    ensures Passed(s, Code) == 0
  {
  }

  lemma ABlankPassed(v: string)
    requires v != "" && !IsBlank(v[0]) && v[0] != '/'
    ensures Passed(" " + v, Code) == 1
  {
    hide Passed;
    NothingPassed(v);
    PassedStep(" " + v);
    assert (" " + v)[1..] == v;
  }

  lemma PassedStep(s: string)
    requires s != "" && s[0] == ' '
    ensures Passed(s, Code) == 1 + Passed(s[1..], Code)
  {
  }

  /** Where the added entry's key is read as the setting. */
  lemma TheKeyIsSetExactlyWhen(p: string, key: string, value: string, separator: string, r: string)
    requires Head(p) && value != "" && !IsBlank(value[0]) && value[0] != '/'
    ensures Setting(p + Entry(key, value, separator) + r, Code, "", Needle(key)) == Some(|p| + 3) <==> OpensTheObject(p)
  {
    hide Setting, Head, EndMode, Opens, Entry, FromKey, Needle;
    var w := FromKey(key, value, separator, r);
    var e := Entry(key, value, separator);
    assert p + e + r == p + (e + r);
    EntryFromKey(key, value, separator, r);
    var m, open := EndMode(p, Code), Opens(p, Code, "");
    PastTheHead(p, e + r, Code, "", Needle(key));
    PastTheIndent(w, m, open, Needle(key));
    TheEntryIsRead(key, value, separator, r, if m == Line then Code else m, open);
    if m == Line {
      ACommentedBraceOpensNothing(p, Code, "");
      assert '{' in "{";
    }
  }

  // ------------------------------------------------------------ no other key has this value

  predicate EndsAComment(c: char) {
    c == '\n' || c == '/'
  }

  /** A comment that is passed over ends in the passing. */
  lemma {:induction false} CommentsEnd(s: string, m: Mode)
    requires (m == Line || m == Block) && Passed(s, m) < |s|
    ensures exists j :: 0 <= j < Passed(s, m) && EndsAComment(s[j])
    decreases |s|
  {
    var (m', n) := Step(s, m);
    if m' == Code {
      assert EndsAComment(s[n - 1]);
    } else {
      CommentsEnd(s[1..], m);
      var j :| 0 <= j < Passed(s[1..], m) && EndsAComment(s[1..][j]);
      assert EndsAComment(s[1 + j]);
    }
  }

  /** A quote that is passed over is in a comment, which ends behind it. */
  lemma {:induction false} PassedQuotes(s: string, m: Mode, i: nat)
    requires m != Quote && i < Passed(s, m) < |s| && s[i] == '"'
    ensures exists j :: i < j < Passed(s, m) && EndsAComment(s[j])
    decreases |s|
  {
    var (m', n) := Step(s, m);
    if i < n {
      QuotesAreInComments(s, m, i);
      CommentsEnd(s[1..], m);
      var j :| 0 <= j < Passed(s[1..], m) && EndsAComment(s[1..][j]);
      assert EndsAComment(s[1 + j]);
    } else {
      PassedQuotes(s[n..], m', i - n);
      var j :| i - n < j < Passed(s[n..], m') && EndsAComment(s[n..][j]);
      assert EndsAComment(s[n + j]);
    }
  }

  lemma QuotesAreInComments(s: string, m: Mode, i: nat)
    requires m != Quote && 0 < Passed(s, m) && i < Step(s, m).1 && s[i] == '"'
    ensures i == 0 && (m == Line || m == Block) && Step(s, m) == (m, 1)
  {
  }

  lemma QuotesBeforeAValue(s: string, i: nat)
    requires ValueAfter(s).Some? && i < ValueAfter(s).value && s[i] == '"'
    ensures exists j :: i < j < ValueAfter(s).value && EndsAComment(s[j])
  {
    hide Passed;
    var k := Passed(s, Code);
    if i < k {
      PassedQuotes(s, Code, i);
    } else {
      var t := s[k + 1..];
      PassedQuotes(t, Code, i - k - 1);
      var j :| i - k - 1 < j < Passed(t, Code) && EndsAComment(t[j]);
      assert EndsAComment(s[k + 1 + j]);
    }
  }

  lemma AtOnce(s: string)
    requires ValueAfter(s) == Some(1)
    ensures s[0] == ':'
  {
  }

  /** A key whose value starts behind another key and colon is that key. */
  lemma OneKeyAValue(text: string, g: nat, i: nat, n: nat)
    requires 2 <= n && i + n + 2 < |text| && g + n <= |text|
    requires text[i + n - 1] == '"' && text[i + n] == ':' && text[i + n + 1] == ' '
    requires ValueAfter(text[g + n..]).Some? && g + ValueAfter(text[g + n..]).value == i + 2
    ensures g == i
  {
    hide ValueAfter;
    var u, b := text[g + n..], ValueAfter(text[g + n..]).value;
    assert forall x :: 0 <= x < |u| ==> u[x] == text[g + n + x];
    if g < i {
      var q := i - 1 - g;
      assert u[q] == text[i + n - 1];
      QuotesBeforeAValue(u, q);
    } else if g > i {
      AtOnce(u);
    }
  }

  // ------------------------------------------------------------ adding

  /**
    An added key is a setting of the file, with the value that was added, exactly when the
    first brace opens the outermost object.
   */
  lemma AnAddedKeyIsASettingExactlyWhen(text: string, key: string, item: Item)
    requires ValueSpan(text, key).None? && Trim(text) != "" && IndexOf(text, '{').Some?
    requires Valid(item) && (item.Text? || item.Group?)
    ensures var p := text[..IndexOf(text, '{').value + 1];
            var start := |p| + 5 + |Needle(key)|;
            && Upsert(text, key, Render(item)).Ok?
            && (TrueSpan(Upsert(text, key, Render(item)).value, key) == Some((start, start + |Render(item)|)) <==> OpensTheObject(p))
  {
    hide ValueSpan, Trim, TrueSpan, OpensTheObject, Valid, Render, Entry;
    var o := IndexOf(text, '{').value + 1;
    var p, r := text[..o], text[o..];
    assert Head(p) by { FirstBraceEndsAHead(text); }
    AnEntryIsASettingExactlyWhen(p, r, key, item, Separator(r));
  }

  lemma FirstBraceEndsAHead(text: string)
    requires IndexOf(text, '{').Some?
    ensures Head(text[..IndexOf(text, '{').value + 1])
  {
    var o := IndexOf(text, '{').value;
    var p := text[..o + 1];
    assert forall i :: 0 <= i < o ==> p[i] == text[..o][i];
  }

  lemma AnEntryIsASettingExactlyWhen(p: string, r: string, key: string, item: Item, separator: string)
    requires Head(p) && Valid(item) && (item.Text? || item.Group?)
    ensures var start := |p| + 5 + |Needle(key)|;
            TrueSpan(p + Entry(key, Render(item), separator) + r, key) == Some((start, start + |Render(item)|)) <==> OpensTheObject(p)
  {
    hide Setting, ValueAfter, TrueLength, Head, OpensTheObject, Valid, Render, Entry, Needle;
    var v, i, n := Render(item), |p| + 3, |Needle(key)|;
    var text := p + Entry(key, v, separator) + r;
    StartsLikeAValue(item);
    TheKeyIsSetExactlyWhen(p, key, v, separator, r);
    EntryEnds(p, r, key, v, separator);
    WrittenIsWhole(item, separator + r);
    ValueAfterTheKey(text, i + n, v + (separator + r));
    assert n >= 2 && text[i + n - 1] == '"' by { EntryKeyEnds(p, r, key, v, separator); }
    var g := Setting(text, Code, "", Needle(key));
    if g.Some? {
      TheSettingIsAKey(text, Code, "", Needle(key));
      assert text[g.value + n..] == text[g.value..][n..];
      if g.value + ValueAfter(text[g.value + n..]).value == i + 2 {
        OneKeyAValue(text, g.value, i, n);
      }
    }
  }

  lemma ValueAfterTheKey(text: string, k: nat, v: string)
    requires k <= |text| && text[k..] == ": " + v && v != "" && !IsBlank(v[0]) && v[0] != '/'
    ensures ValueAfter(text[k..]) == Some(2) && k + 2 < |text| && text[k] == ':' && text[k + 1] == ' '
  {
    hide ValueAfter;
    ColonAndSpace(text[k..], v);
    assert text[k] == text[k..][0] && text[k + 1] == text[k..][1];
  }

  lemma EntryKeyEnds(p: string, r: string, key: string, value: string, separator: string)
    ensures var text := p + Entry(key, value, separator) + r;
            var k := |p| + 3 + |Needle(key)|;
            |Needle(key)| >= 2 && k <= |text| && text[k - 1] == '"'
  {
    var e := Entry(key, value, separator);
    var text := p + e + r;
    assert e == "\n  " + Needle(key) + (": " + value + separator);
    assert text[|p| + 2 + |Needle(key)|] == e[2 + |Needle(key)|];
  }

  /** In a file that was empty it always is. */
  lemma AKeyOfANewFileIsASetting(text: string, key: string, item: Item)
    requires Trim(text) == "" && Valid(item) && (item.Text? || item.Group?)
    ensures var start := 6 + |Needle(key)|;
            && Upsert(text, key, Render(item)).Ok?
            && TrueSpan(Upsert(text, key, Render(item)).value, key) == Some((start, start + |Render(item)|))
  {
    hide ValueSpan, Trim, TrueSpan, Valid, Render, Entry;
    AnEmptyFileHasNoKey(text, key);
    TheBraceOpens();
    AnEntryIsASettingExactlyWhen("{", "}\n", key, item, "\n");
  }

  lemma TheBraceOpens()
    ensures Head("{") && OpensTheObject("{")
  {
    assert "{"[1..] == "" && "" + ['{'] == "{";
    assert EndMode("", Code) == Code && Opens("", Code, "{") == "{";
  }

  // ------------------------------------------------------------ replacing

  /** What is open where a key is found does not depend on what follows the key. */
  lemma {:induction false} OpenAgain(s: string, s': string, m: Mode, open: string, needle: string)
    requires |needle| >= 2 && Find(s, m, needle).Some?
    requires var n := Find(s, m, needle).value + |needle|; n <= |s'| && s[..n] == s'[..n]
    ensures OpenAt(s', m, open, Find(s, m, needle).value) == OpenAt(s, m, open, Find(s, m, needle).value)
    decreases |s|
  {
    hide Find, Hit, Step, Opened, OpenAt;
    var h := Find(s, m, needle).value;
    FindStep(s, m, needle);
    SameStart(s, s', m, needle, h + |needle|);
    OpenStep(s, m, open, h);
    OpenStep(s', m, open, h);
    if !Hit(s, m, needle) {
      var (m', k) := Step(s, m);
      SlicesAgree(s, s', h + |needle|, k);
      assert s[0] == s[..h + |needle|][0] && s'[0] == s'[..h + |needle|][0];
      OpenedAlike(s, s', m, open);
      OpenAgain(s[k..], s'[k..], m', Opened(s, m, open), needle);
    }
  }

  lemma OpenStep(s: string, m: Mode, open: string, h: nat)
    requires s != ""
    ensures OpenAt(s, m, open, h) ==
            if h == 0 then open else var (m', n) := Step(s, m); OpenAt(s[n..], m', Opened(s, m, open), if n <= h then h - n else 0)
  {
  }

  /** The key of an edited value, and where its new value starts. */
  lemma TheKeyIsStillThere(text: string, key: string, v: string)
    requires ValueSpan(text, key).Some? && v != "" && !IsBlank(v[0]) && v[0] != '/'
    ensures var (start, end) := ValueSpan(text, key).value;
            var text' := text[..start] + v + text[end..];
            var h := Find(text, Code, Needle(key));
            && h.Some? && Find(text', Code, Needle(key)) == h && h.value + |Needle(key)| < start
            && OpenAt(text', Code, "", h.value) == OpenAt(text, Code, "", h.value)
            && ToValue(text'[h.value + |Needle(key)|..]) == Some(start - h.value - |Needle(key)|)
            && ValueAfter(text'[h.value + |Needle(key)|..]) == Some(start - h.value - |Needle(key)|)
  {
    hide Find, ToValue, ValueAfter, OpenAt, Blanks, IsBlank, Quiet, Needle, ValueLength;
    var (start, end) := ValueSpan(text, key).value;
    var text' := text[..start] + v + text[end..];
    KeyIsBeforeItsValue(text, key);
    var h := Find(text, Code, Needle(key)).value;
    assert text'[..start] == text[..start];
    Prefixes(text, text', start, h + |Needle(key)|);
    FoundAgain(text, text', Code, Needle(key), start);
    OpenAgain(text, text', Code, "", Needle(key));
    var k := h + |Needle(key)|;
    var u, u', a := text[k..], text'[k..], start - k;
    assert u[..a] == text[..start][k..] && u'[..a] == text'[..start][k..];
    assert u'[a] == v[0];
    ToValueAgain(u, u', a);
    assert u'[a..] == v + text[end..];
    NoCommentStarts(u'[a..]);
    ValueAfterIs(u');
  }

  lemma NoCommentStarts(s: string)
    requires s != "" && s[0] != '/'
    ensures !StartsComment(s)
  {
  }

  /**
    A replaced value is the value of a setting of the file exactly when the first
    occurrence of the quoted key in code is in the outermost object; and that is so of
    every setting that is found.
   */
  lemma AReplacedValueIsASettingExactlyWhen(text: string, key: string, item: Item)
    requires ValueSpan(text, key).Some? && Valid(item) && (item.Text? || item.Group?)
    ensures var (start, end) := ValueSpan(text, key).value;
            var h := Find(text, Code, Needle(key));
            && h.Some? && Upsert(text, key, Render(item)) == Ok(text[..start] + Render(item) + text[end..])
            && (TrueSpan(text[..start] + Render(item) + text[end..], key) == Some((start, start + |Render(item)|))
                <==> OpenAt(text, Code, "", h.value) == "{")
            && (StartOf(text, key) == TrueStart(text, key) ==> OpenAt(text, Code, "", h.value) == "{")
  {
    hide Find, Setting, ToValue, ValueAfter, OpenAt, TrueLength, Needle, Valid, Render, ValueSpan, StartOf, TrueStart, Followed, TrueSpan, StartsComment;
    var v := Render(item);
    var (start, end) := ValueSpan(text, key).value;
    StartsLikeAValue(item);
    TheKeyIsStillThere(text, key, v);
    WrittenIsWhole(item, text[end..]);
    assert (text[..start] + v + text[end..])[start..] == v + text[end..];
    ANewValueIsTheSettings(text[..start] + v + text[end..], key, Find(text, Code, Needle(key)).value, start, v);
    StartsSomewhere(text, key);
    TheSettingIsFoundExactlyWhen(text, key);
  }

  lemma StartsSomewhere(text: string, key: string)
    requires ValueSpan(text, key).Some?
    ensures StartOf(text, key).Some?
  {
    hide Find, ToValue, ValueLength, Needle;
  }

  lemma ANewValueIsTheSettings(text: string, key: string, h: nat, start: nat, v: string)
    requires h + |Needle(key)| < start < |text| && Find(text, Code, Needle(key)) == Some(h)
    requires ToValue(text[h + |Needle(key)|..]) == Some(start - h - |Needle(key)|)
    requires ValueAfter(text[h + |Needle(key)|..]) == Some(start - h - |Needle(key)|) && TrueLength(text[start..]) == Some(|v|)
    ensures TrueSpan(text, key) == Some((start, start + |v|)) <==> OpenAt(text, Code, "", h) == "{"
  {
    hide Find, Setting, ToValue, ValueAfter, TrueLength, Needle, IsKey, TrueSpan, OpenAt;
    AKeyIsThere(text, h, Needle(key));
    FirstWhereOpen(text, key);
    if Setting(text, Code, "", Needle(key)) == Some(h) {
      TheSettingIsThere(text, key, h, start, v);
    } else {
      TheSettingIsElsewhere(text, key, h, start, v);
    }
  }

  lemma TheSettingIsThere(text: string, key: string, h: nat, start: nat, v: string)
    requires Setting(text, Code, "", Needle(key)) == Some(h) && h + |Needle(key)| < start < |text|
    requires ValueAfter(text[h + |Needle(key)|..]) == Some(start - h - |Needle(key)|) && TrueLength(text[start..]) == Some(|v|)
    ensures TrueSpan(text, key) == Some((start, start + |v|))
  {
    hide Setting, ValueAfter, TrueLength, Needle;
  }

  lemma TheSettingIsElsewhere(text: string, key: string, h: nat, start: nat, v: string)
    requires Setting(text, Code, "", Needle(key)) != Some(h) && h + |Needle(key)| < start < |text|
    requires ToValue(text[h + |Needle(key)|..]) == Some(start - h - |Needle(key)|)
    requires var g := Setting(text, Code, "", Needle(key)); g.Some? ==> h <= g.value && IsKey(text[g.value..], Needle(key))
    ensures TrueSpan(text, key) != Some((start, start + |v|))
  {
    hide Setting, ValueAfter, TrueLength, Needle, ToValue, IsKey, TrueSpan;
    var g := Setting(text, Code, "", Needle(key));
    TrueSpanStarts(text, key);
    if g.Some? {
      BehindIsLater(text, h, g.value, key);
    }
  }

  lemma AKeyIsThere(text: string, h: nat, needle: string)
    requires h + |needle| <= |text| && needle <= text[h..] && ValueAfter(text[h + |needle|..]).Some?
    ensures IsKey(text[h..], needle)
  {
    hide ValueAfter;
    assert text[h..][|needle|..] == text[h + |needle|..];
  }

  lemma FirstWhereOpen(text: string, key: string)
    requires var h := Find(text, Code, Needle(key)); h.Some? && IsKey(text[h.value..], Needle(key))
    ensures var h, g := Find(text, Code, Needle(key)), Setting(text, Code, "", Needle(key));
            && (g == h <==> OpenAt(text, Code, "", h.value) == "{")
            && (g.Some? ==> h.value <= g.value && IsKey(text[g.value..], Needle(key)))
  {
    hide Find, Setting, OpenAt, Needle, IsKey;
    TheSettingIsFirstOrBehind(text, Code, "", Needle(key));
    if Setting(text, Code, "", Needle(key)).Some? {
      TheSettingIsAKey(text, Code, "", Needle(key));
    }
  }

  lemma TrueSpanStarts(text: string, key: string)
    ensures var g := Setting(text, Code, "", Needle(key));
            && (g.None? ==> TrueSpan(text, key) == None)
            && (g.Some? ==>
                  var k := g.value + |Needle(key)|;
                  var a := ValueAfter(text[k..]);
                  && (a.None? ==> TrueSpan(text, key) == None)
                  && (a.Some? ==>
                        var n := TrueLength(text[k + a.value..]);
                        TrueSpan(text, key) == if n.None? then None else Some((k + a.value, k + a.value + n.value))))
  {
    hide Setting, ValueAfter, TrueLength, Needle;
  }

  lemma BehindIsLater(text: string, h: nat, g: nat, key: string)
    requires h < g && g + |Needle(key)| <= |text| && IsKey(text[g..], Needle(key)) && ToValue(text[h + |Needle(key)|..]).Some?
    ensures ValueAfter(text[g + |Needle(key)|..]).Some?
    ensures h + |Needle(key)| + ToValue(text[h + |Needle(key)|..]).value < g + |Needle(key)| + ValueAfter(text[g + |Needle(key)|..]).value
  {
    hide ToValue, ValueAfter;
    assert text[g..][|Needle(key)|..] == text[g + |Needle(key)|..];
    NeedleEnds(key);
    ALaterKeyHasALaterValue(text, h, g, Needle(key));
  }
}
