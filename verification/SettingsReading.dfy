/**
  What every setting reads as, with comments and brackets read as such, before and after
  another one is added, replaced or taken out; and what is left of one that is taken out.
 */
module SettingsReading {
  import opened Strings
  import opened Wrappers
  import opened Settings
  import opened SettingsEdits
  import opened SettingsValues
  import opened SettingsNeighbours
  import opened SettingsComments
  import opened SettingsFinding
  import opened SettingsObject
  import opened SettingsRemoval

  /** The value behind a key that ends at k. */
  function ReadKey(s: string, k: nat): Option<string>
    requires k <= |s|
  {
    var a := ValueAfter(s[k..]);
    if a.None? then None
    else
      var n := TrueLength(s[k + a.value..]);
      if n.None? then None else Some(s[k + a.value..k + a.value + n.value])
  }

  /** What the key reads as in a text, from a mode and with brackets already open. */
  function ReadFrom(s: string, m: Mode, open: string, key: string): Option<string> {
    var g := Setting(s, m, open, Needle(key));
    if g.None? then None else ReadKey(s, g.value + |Needle(key)|)
  }

  function TrueText(text: string, key: string): Option<string> {
    ReadFrom(text, Code, "", key)
  }

  /** That is the text of the setting's span. */
  lemma TrueTextIsTheSpans(text: string, key: string)
    ensures var span := TrueSpan(text, key);
            TrueText(text, key) == if span.None? then None else Some(text[span.value.0..span.value.1])
  {
    hide Setting, ValueAfter, TrueLength, Needle;
  }

  lemma ReadShifted(s: string, t: string, x: string, key: string, m: Mode, open: string, m': Mode, open': string)
    requires s == t + x && Setting(s, m, open, Needle(key)) == Shift(|t|, Setting(x, m', open', Needle(key)))
    ensures ReadFrom(s, m, open, key) == ReadFrom(x, m', open', key)
  {
    hide Setting, ReadKey, Needle;
    var g := Setting(x, m', open', Needle(key));
    if g.Some? {
      ReadKeyShifted(s, t, x, g.value + |Needle(key)|);
    }
  }

  lemma ReadKeyShifted(s: string, t: string, x: string, k: nat)
    requires s == t + x && k <= |x|
    ensures ReadKey(s, |t| + k) == ReadKey(x, k)
  {
    hide ValueAfter, TrueLength;
    assert s[|t| + k..] == x[k..];
    var a := ValueAfter(x[k..]);
    if a.Some? {
      assert s[|t| + k + a.value..] == x[k + a.value..];
      var n := TrueLength(x[k + a.value..]);
      if n.Some? {
        assert s[|t| + k + a.value..][..n.value] == x[k + a.value..][..n.value];
        assert s[|t| + k + a.value..|t| + k + a.value + n.value] == s[|t| + k + a.value..][..n.value];
        assert x[k + a.value..k + a.value + n.value] == x[k + a.value..][..n.value];
      }
    }
  }

  // ------------------------------------------------------------ passing over an entry

  /** What comes next in code is no colon. */
  predicate NotColon(s: string) {
    var j := Passed(s, Code);
    j == |s| || s[j] != ':'
  }

  lemma {:induction false} PlainPast(s: string, r: string, open: string, needle: string)
    requires AllPlain(s)
    ensures Setting(s + r, Code, open, needle) == Shift(|s|, Setting(r, Code, open, needle))
    decreases |s|
  {
    hide Setting, IsKey;
    if s == "" {
      assert s + r == r;
    } else {
      SettingStep(s + r, Code, open, needle);
      assert (s + r)[1..] == s[1..] + r;
      PlainPast(s[1..], r, open, needle);
    }
  }

  lemma {:induction false} PiecesPast(ps: seq<Piece>, r: string, open: string, needle: string)
    requires ValidPieces(ps)
    ensures Setting(RenderPieces(ps) + r, Quote, open, needle) == Shift(|RenderPieces(ps)|, Setting(r, Quote, open, needle))
    decreases |ps|
  {
    hide Setting, IsKey;
    var s := RenderPieces(ps) + r;
    if ps == [] {
      assert s == r;
    } else {
      var rest := RenderPieces(ps[1..]) + r;
      assert s == RenderPiece(ps[0]) + rest;
      assert s[|RenderPiece(ps[0])|..] == rest;
      SettingStep(s, Quote, open, needle);
      PiecesPast(ps[1..], r, open, needle);
    }
  }

  lemma QuotePast(r: string, open: string, needle: string)
    ensures Setting("\"" + r, Quote, open, needle) == Shift(1, Setting(r, Code, open, needle))
  {
    hide Setting, IsKey;
    SettingStep("\"" + r, Quote, open, needle);
    assert ("\"" + r)[1..] == r;
  }

  /** A string is no key of the outermost object unless it is the key and a colon follows. */
  lemma StringPast(ps: seq<Piece>, r: string, open: string, key: string)
    requires ValidPieces(ps) && PlainKey(key) && (RenderPieces(ps) != key || open != "{" || NotColon(r))
    ensures Setting(Render(Text(ps)) + r, Code, open, Needle(key)) == Shift(|Render(Text(ps))|, Setting(r, Code, open, Needle(key)))
  {
    hide Setting, IsKey, NotColon, ValidPieces, RenderPieces, PlainKey, Needle;
    var tail := RenderPieces(ps) + ("\"" + r);
    var s := Render(Text(ps)) + r;
    assert s == "\"" + tail;
    assert s[1..] == tail;
    SettingStep(s, Code, open, Needle(key));
    if RenderPieces(ps) != key {
      TheStringIsNotTheKey(ps, r, key);
      NoPrefixNoKey(s, Needle(key));
    } else if open == "{" {
      NoColonNoKey(s, key, r);
    }
    PiecesPast(ps, "\"" + r, open, Needle(key));
    QuotePast(r, open, Needle(key));
  }

  lemma NoPrefixNoKey(s: string, needle: string)
    requires !(needle <= s)
    ensures !IsKey(s, needle)
  {
  }

  lemma NoColonNoKey(s: string, key: string, r: string)
    requires s == "\"" + (key + ("\"" + r)) && NotColon(r)
    ensures !IsKey(s, Needle(key))
  {
    hide Passed;
    assert s == Needle(key) + r;
    assert s[|Needle(key)|..] == r;
  }

  /** Inside a bracket an item is passed over with the same brackets open. */
  lemma {:induction false} ItemPast(item: Item, r: string, open: string, key: string)
    requires Valid(item) && PlainKey(key) && open != "" && (item.Text? && open == "{" ==> NotColon(r))
    ensures Setting(Render(item) + r, Code, open, Needle(key)) == Shift(|Render(item)|, Setting(r, Code, open, Needle(key)))
    decreases item
  {
    hide Setting, Needle, NotColon, PlainKey, IsKey;
    match item
    case Text(ps) => StringPast(ps, r, open, key);
    case Literal(text) => PlainPast(text, r, open, Needle(key));
    case Other(c) => PlainPast([c], r, open, Needle(key));
    case Group(q, items) =>
      var tail := [Close(q)] + r;
      assert Render(item) + r == [Open(q)] + (RenderAll(items) + tail);
      OpenPast(q, RenderAll(items) + tail, open, Needle(key));
      ItemsPast(items, tail, open + [Open(q)], key);
      ClosePast(q, r, open, Needle(key));
  }

  lemma OpenPast(q: bool, r: string, open: string, needle: string)
    ensures Setting([Open(q)] + r, Code, open, needle) == Shift(1, Setting(r, Code, open + [Open(q)], needle))
  {
    hide Setting, IsKey;
    SettingStep([Open(q)] + r, Code, open, needle);
    assert ([Open(q)] + r)[1..] == r;
  }

  lemma ClosePast(q: bool, r: string, open: string, needle: string)
    ensures Setting([Close(q)] + r, Code, open + [Open(q)], needle) == Shift(1, Setting(r, Code, open, needle))
  {
    hide Setting, IsKey;
    var inner := open + [Open(q)];
    SettingStep([Close(q)] + r, Code, inner, needle);
    assert ([Close(q)] + r)[1..] == r && inner[..|inner| - 1] == open;
  }

  lemma {:induction false} ItemsPast(items: seq<Item>, r: string, open: string, key: string)
    requires AllValid(items) && PlainKey(key) && |open| >= 2
    ensures Setting(RenderAll(items) + r, Code, open, Needle(key)) == Shift(|RenderAll(items)|, Setting(r, Code, open, Needle(key)))
    decreases items
  {
    hide Setting, Needle, NotColon, PlainKey;
    if items == [] {
      assert RenderAll(items) + r == r;
    } else {
      var rest := RenderAll(items[1..]) + r;
      assert RenderAll(items) + r == Render(items[0]) + rest;
      ItemPast(items[0], rest, open, key);
      ItemsPast(items[1..], r, open, key);
    }
  }

  /** A whole entry of another key is passed over. */
  lemma EntryPast(a: string, key: string, b: string, item: Item, c: string, r: string, open: string, other: string)
    requires AllPlain(a) && AllPlain(b) && AllPlain(c) && Valid(item) && NotColon(c + r) && open != ""
    requires PlainKey(key) && PlainKey(other) && (key != other || open != "{")
    ensures Setting(a + (Needle(key) + (b + (Render(item) + (c + r)))), Code, open, Needle(other))
            == Shift(|a| + |Needle(key)| + |b| + |Render(item)| + |c|, Setting(r, Code, open, Needle(other)))
  {
    hide Setting, Needle, Render, AllPlain, Valid, NotColon, PlainKey;
    var needle := Needle(other);
    PlainPast(a, Needle(key) + (b + (Render(item) + (c + r))), open, needle);
    KeyPast(key, b + (Render(item) + (c + r)), open, other);
    PlainPast(b, Render(item) + (c + r), open, needle);
    ItemPast(item, c + r, open, other);
    PlainPast(c, r, open, needle);
  }

  lemma KeyPast(key: string, r: string, open: string, other: string)
    requires PlainKey(key) && PlainKey(other) && (key != other || open != "{")
    ensures Setting(Needle(key) + r, Code, open, Needle(other)) == Shift(|Needle(key)|, Setting(r, Code, open, Needle(other)))
  {
    hide Setting;
    RawsRender(key);
    StringPast(Raws(key), r, open, other);
    assert Render(Text(Raws(key))) == Needle(key);
  }

  // ------------------------------------------------------------ adding

  lemma PlainPieces(separator: string)
    requires separator == "\n" || separator == ",\n"
    ensures AllPlain("\n  ") && AllPlain(": ") && AllPlain(separator)
  {
  }

  /** What comes behind the entry is a comma, or the end of the object. */
  lemma NoColonBehind(r: string)
    ensures NotColon(Separator(r) + r)
  {
    if Separator(r) == "\n" {
      hide Passed;
      var s := "\n" + r;
      assert s[1..] == r;
      var n := Blanks(r);
      BlanksAre(s, n + 1);
      assert s[n + 1..] == r[n..];
      PassedBlanks(s);
    }
  }

  /** A key added where the object opens leaves what every other setting reads as. */
  lemma AddingLeavesEveryReading(text: string, key: string, item: Item, other: string)
    requires ValueSpan(text, key).None? && Trim(text) != "" && IndexOf(text, '{').Some?
    requires OpensTheObject(text[..IndexOf(text, '{').value + 1])
    requires Valid(item) && PlainKey(key) && PlainKey(other) && key != other
    ensures Upsert(text, key, Render(item)).Ok?
    ensures TrueText(Upsert(text, key, Render(item)).value, other) == TrueText(text, other)
  {
    hide ValueSpan, Trim, Valid, Render, Entry, PlainKey, Setting, Needle, ReadFrom, Head, Opens, EndMode, NotColon, AllPlain, Separator;
    var o := IndexOf(text, '{').value + 1;
    var p, r := text[..o], text[o..];
    var sep := Separator(r);
    var e := Entry(key, Render(item), sep);
    assert sep == "\n" || sep == ",\n" by { SeparatorIs(r); }
    FirstBraceEndsAHead(text);
    PlainPieces(sep);
    NoColonBehind(r);
    EntryText(key, item, sep, r);
    PastTheHead(p, r, Code, "", Needle(other));
    PastTheHead(p, e + r, Code, "", Needle(other));
    EntryPast("\n  ", key, ": ", item, sep, r, "{", other);
    assert text == p + r && p + e + r == p + (e + r);
    ReadShifted(text, p, r, other, Code, "", Code, "{");
    ReadShifted(p + e + r, p, e + r, other, Code, "", Code, "{");
    ReadShifted(e + r, e, r, other, Code, "{", Code, "{");
  }

  lemma SeparatorIs(r: string)
    ensures Separator(r) == "\n" || Separator(r) == ",\n"
  {
  }

  // ------------------------------------------------------------ text that ends in code

  lemma PassStep(s: string, m: Mode)
    requires m != Quote && s != ""
    ensures Passed(s, m) ==
            if m == Code && !IsBlank(s[0]) && !StartsComment(s) then 0 else var (m', n) := Step(s, m); n + Passed(s[n..], m')
    ensures !(m == Code && !IsBlank(s[0]) && !StartsComment(s)) ==> Step(s, m).0 != Quote
  {
  }

  lemma SameStop(s: string, x: string)
    requires s != "" && !Meets(s, x, Code)
    ensures StartsComment(s + x) <==> StartsComment(s)
  {
    hide Classes, EndMode;
    if |s| == 1 {
      assert x != "" ==> (s + x)[1] == x[0];
      ASlashIsCode(s);
    } else {
      assert (s + x)[0] == s[0] && (s + x)[1] == s[1];
    }
    CommentStarts(s);
    CommentStarts(s + x);
  }

  lemma ASlashIsCode(s: string)
    requires |s| == 1
    ensures s[0] == '/' ==> Classes(s, Code)[0] == Code
  {
  }

  lemma CommentStarts(s: string)
    ensures StartsComment(s) <==> |s| >= 2 && s[0] == '/' && (s[1] == '/' || s[1] == '*')
  {
    if StartsComment(s) {
      assert s[0] == s[..2][0] && s[1] == s[..2][1];
    } else if |s| >= 2 {
      assert s[..2] == [s[0], s[1]];
    }
  }

  /** Blanks and comments are passed over alike whatever follows, or all the way into it. */
  lemma {:induction false} PassedJoin(t: string, x: string, m: Mode)
    requires m != Quote && EndMode(t, m) == Code && !Meets(t, x, m)
    ensures Passed(t, m) < |t| ==> Passed(t + x, m) == Passed(t, m)
    ensures Passed(t, m) < |t| ==> EndMode(t[Passed(t, m)..], Code) == Code && !Meets(t[Passed(t, m)..], x, Code)
    ensures Passed(t, m) == |t| ==> Passed(t + x, m) == |t| + Passed(x, Code)
    decreases |t|
  {
    hide Classes, EndMode, Passed, Step, Meets, StartsComment, IsBlank;
    if t == "" {
      Nothing(m);
      assert t + x == x;
      assert Passed(t, m) == 0;
    } else {
      PassStep(t, m);
      PassStep(t + x, m);
      assert (t + x)[0] == t[0];
      if m == Code {
        SameStop(t, x);
      }
      CodeStep(t, x, m);
      if m == Code && !IsBlank(t[0]) && !StartsComment(t) {
        assert t[0..] == t;
      } else {
        var (m', n) := Step(t, m);
        PassedJoin(t[n..], x, m');
        assert Passed(t[n..], m') < |t| - n ==> t[n..][Passed(t[n..], m')..] == t[Passed(t, m)..];
      }
    }
  }

  /** A text whose next character in code is there, and no colon. */
  predicate Solid(x: string) {
    Passed(x, Code) < |x| && x[Passed(x, Code)] != ':'
  }

  predicate ColonIn(t: string) {
    Passed(t, Code) < |t| && t[Passed(t, Code)] == ':'
  }

  /** Where the value behind t's colon starts in it, if it does. */
  function BehindColon(t: string): (b: nat)
    requires ColonIn(t)
    ensures b <= |t|
  {
    Passed(t, Code) + 1 + Passed(t[Passed(t, Code) + 1..], Code)
  }

  lemma ValueAfterJoin(t: string, x: string)
    requires EndMode(t, Code) == Code && !Meets(t, x, Code) && NotColon(x)
    ensures ValueAfter(t + x) ==
            if !ColonIn(t) then None
            else if BehindColon(t) < |t| then Some(BehindColon(t))
            else if Passed(x, Code) < |x| then Some(|t| + Passed(x, Code))
            else None
  {
    hide Classes, EndMode, Passed, Meets, BehindColon, ValueAfter;
    PassedJoin(t, x, Code);
    if ColonIn(t) {
      var j := Passed(t, Code);
      ColonSplits(t, x, j);
      ValueBehindColon(t + x, t, t[j + 1..], x, j);
      BehindColonIs(t);
    } else {
      NoValueBehind(t, x);
    }
  }

  lemma NoValueBehind(t: string, x: string)
    requires !ColonIn(t) && NotColon(x)
    requires Passed(t, Code) < |t| ==> Passed(t + x, Code) == Passed(t, Code)
    requires Passed(t, Code) == |t| ==> Passed(t + x, Code) == |t| + Passed(x, Code)
    ensures ValueAfter(t + x) == None
  {
    hide Passed;
    var j := Passed(t, Code);
    assert j < |t| ==> (t + x)[j] == t[j];
    assert j == |t| && Passed(x, Code) < |x| ==> (t + x)[j + Passed(x, Code)] == x[Passed(x, Code)];
  }

  lemma ValueBehindColon(s: string, t: string, u: string, x: string, j: nat)
    requires |s| == |t| + |x| && Passed(s, Code) == j < |t| && s[j] == ':' && |u| == |t| - j - 1 && s[j + 1..] == u + x
    requires EndMode(u, Code) == Code && !Meets(u, x, Code)
    ensures ValueAfter(s) ==
            if Passed(u, Code) < |u| then Some(j + 1 + Passed(u, Code))
            else if Passed(x, Code) < |x| then Some(|t| + Passed(x, Code))
            else None
  {
    hide Classes, EndMode, Passed, Meets, ValueAfter;
    HowFarItPasses(u, x);
    ValueFromColon(s, j);
  }

  lemma ColonSplits(t: string, x: string, j: nat)
    requires j < |t| && t[j] == ':' && EndMode(t[j..], Code) == Code && !Meets(t[j..], x, Code)
    ensures (t + x)[j] == ':' && (t + x)[j + 1..] == t[j + 1..] + x
    ensures EndMode(t[j + 1..], Code) == Code && !Meets(t[j + 1..], x, Code)
  {
    hide Classes, EndMode, Meets;
    AColonSteps(t[j..], x);
    assert t[j..][1..] == t[j + 1..];
  }

  lemma HowFarItPasses(t: string, x: string)
    requires EndMode(t, Code) == Code && !Meets(t, x, Code)
    ensures Passed(t + x, Code) == if Passed(t, Code) < |t| then Passed(t, Code) else |t| + Passed(x, Code)
  {
    hide Classes, EndMode, Passed, Meets;
    PassedJoin(t, x, Code);
  }

  lemma BehindColonIs(t: string)
    requires ColonIn(t)
    ensures BehindColon(t) == Passed(t, Code) + 1 + Passed(t[Passed(t, Code) + 1..], Code)
  {
  }

  lemma ValueFromColon(s: string, j: nat)
    requires Passed(s, Code) == j < |s| && s[j] == ':'
    ensures var a := j + 1 + Passed(s[j + 1..], Code); ValueAfter(s) == if a == |s| then None else Some(a)
  {
    hide Passed;
  }

  lemma AColonSteps(u: string, x: string)
    requires u != "" && u[0] == ':' && EndMode(u, Code) == Code && !Meets(u, x, Code)
    ensures EndMode(u[1..], Code) == Code && !Meets(u[1..], x, Code)
  {
    hide Classes, EndMode, Meets;
    CodeStep(u, x, Code);
  }

  // ------------------------------------------------------------ the settings in front

  /** In front, a setting with its value's start is found whatever follows, or none is. */
  predicate SetAlike(p: string, x: string, x': string, m: Mode, open: string, needle: string) {
    var g := Setting(p + x, m, open, needle);
    if g.Some? && g.value < |p| then
      && g.value + |needle| <= |p|
      && (var a := ValueAfter((p + x)[g.value + |needle|..]);
          a.Some? && g.value + |needle| + a.value < |p| ==>
            Setting(p + x', m, open, needle) == g && ValueAfter((p + x')[g.value + |needle|..]) == a)
    else
      && g == Shift(|p|, Setting(x, Code, Opens(p, m, open), needle))
      && Setting(p + x', m, open, needle) == Shift(|p|, Setting(x', Code, Opens(p, m, open), needle))
  }

  lemma AfterTheNeedle(p: string, x: string, other: string)
    requires EndMode(p, Code) == Code && PlainKey(other) && Needle(other) <= p && !Meets(p, x, Code)
    ensures var t := p[|Needle(other)|..]; EndMode(t, Code) == Code && !Meets(t, x, Code)
  {
    hide Classes, EndMode, PlainKey, Needle;
    var t := p[|Needle(other)|..];
    assert p == Needle(other) + t;
    AKeyIsInert(other);
    Joined(Needle(other), t, Code);
    assert t != "" ==> t[|t| - 1] == p[|p| - 1] && Classes(t, Code)[|t| - 1] == Classes(p, Code)[|p| - 1];
  }

  /** At a key that is wholly in front. */
  lemma KeyAlike(p: string, x: string, x': string, other: string)
    requires p != "" && EndMode(p, Code) == Code && PlainKey(other) && !Meets(p, x, Code) && !Meets(p, x', Code)
    requires NotColon(x) && Solid(x) && NotColon(x') && Hit(p + x, Code, Needle(other))
    ensures |Needle(other)| <= |p|
    ensures IsKey(p + x', Needle(other)) ==> IsKey(p + x, Needle(other))
    ensures var n := |Needle(other)|;
            var a := ValueAfter((p + x)[n..]);
            a.Some? && n + a.value < |p| ==> IsKey(p + x', Needle(other)) && ValueAfter((p + x')[n..]) == a
  {
    hide Classes, EndMode, PlainKey, Meets, ValueAfter, NotColon, Passed, Needle, Hit;
    KeyIsInFront(p, x, other);
    var n, t := |Needle(other)|, p[|Needle(other)|..];
    AfterTheNeedle(p, x, other);
    AfterTheNeedle(p, x', other);
    assert (p + x)[n..] == t + x && (p + x')[n..] == t + x';
    ValueAfterJoin(t, x);
    ValueAfterJoin(t, x');
    assert Needle(other) <= p + x' && Needle(other) <= p + x;
  }

  lemma KeyIsInFront(p: string, x: string, other: string)
    requires p != "" && EndMode(p, Code) == Code && PlainKey(other) && Hit(p + x, Code, Needle(other))
    ensures Needle(other) <= p
  {
    hide EndMode, PlainKey;
    EndStep(p, Code);
    assert (p + x)[0] == p[0] && (p + x)[1..] == p[1..] + x;
    NeedleAtStart(p + x, other);
    KeyFitsIn(p[1..], x, other);
    assert (p + x)[..|Needle(other)|] == p[..|Needle(other)|];
  }

  lemma {:induction false} SettingsInFront(p: string, x: string, x': string, m: Mode, open: string, other: string)
    requires EndMode(p, m) == Code && PlainKey(other) && !Meets(p, x, m) && !Meets(p, x', m)
    requires NotColon(x) && Solid(x) && NotColon(x')
    ensures SetAlike(p, x, x', m, open, Needle(other))
    decreases |p|
  {
    hide Setting, Hit, Step, EndMode, Meets, SetAlike, PlainKey, Needle, NotColon, Solid, IsKey, Opened, ValueAfter;
    if p == "" {
      Nothing(m);
      SetAtTheEnd(x, x', open, Needle(other));
    } else {
      CodeStep(p, x, m);
      CodeStep(p, x', m);
      if Hit(p + x, m, Needle(other)) {
        HitsInCode(p, x, x', m, other);
        CodeOfAHit(p + x, m, Needle(other));
        KeyAlike(p, x, x', other);
      } else if Hit(p + x', m, Needle(other)) {
        HitsInCode(p, x', x, m, other);
      }
      if Hit(p + x, m, Needle(other)) && open == "{" && IsKey(p + x, Needle(other)) {
        SetHere(p, x, x', m, open, Needle(other));
      } else {
        SettingsInFront(p[Step(p, m).1..], x, x', Step(p, m).0, Opened(p, m, open), other);
        SetFurther(p, x, x', m, open, Needle(other));
      }
    }
  }

  lemma CodeOfAHit(s: string, m: Mode, needle: string)
    requires Hit(s, m, needle)
    ensures m == Code
  {
  }

  lemma SetAtTheEnd(x: string, x': string, open: string, needle: string)
    ensures SetAlike("", x, x', Code, open, needle)
  {
    hide Setting, ValueAfter;
    assert "" + x == x && "" + x' == x';
  }

  lemma SetHere(p: string, x: string, x': string, m: Mode, open: string, needle: string)
    requires p != "" && Hit(p + x, m, needle) && Hit(p + x', m, needle) && open == "{" && IsKey(p + x, needle) && |needle| <= |p|
    requires var a := ValueAfter((p + x)[|needle|..]);
             a.Some? && |needle| + a.value < |p| ==> IsKey(p + x', needle) && ValueAfter((p + x')[|needle|..]) == a
    ensures SetAlike(p, x, x', m, open, needle)
  {
    hide Setting, ValueAfter, Hit, IsKey;
    SettingStep(p + x, m, open, needle);
    SettingStep(p + x', m, open, needle);
  }

  lemma SetFurther(p: string, x: string, x': string, m: Mode, open: string, needle: string)
    requires p != "" && Step(p + x, m) == Step(p, m) && Step(p + x', m) == Step(p, m)
    requires !(Hit(p + x, m, needle) && open == "{" && IsKey(p + x, needle))
    requires !(Hit(p + x', m, needle) && open == "{" && IsKey(p + x', needle))
    requires var (m', n) := Step(p, m); SetAlike(p[n..], x, x', m', Opened(p, m, open), needle)
    ensures SetAlike(p, x, x', m, open, needle)
  {
    hide Setting, ValueAfter, Hit, IsKey, Step, Opened;
    var (m', n) := Step(p, m);
    SettingStep(p + x, m, open, needle);
    SettingStep(p + x', m, open, needle);
    assert (p + x)[n..] == p[n..] + x && (p + x')[n..] == p[n..] + x';
    OpenedAlike(p, p + x, m, open);
    OpenedAlike(p, p + x', m, open);
    var g := Setting(p[n..] + x, m', Opened(p, m, open), needle);
    if g.Some? && g.value < |p| - n {
      var k := g.value + |needle|;
      assert (p[n..] + x)[k..] == (p + x)[n + k..] && (p[n..] + x')[k..] == (p + x')[n + k..];
    }
  }

  // ------------------------------------------------------------ values in front

  /** A bracket that is closed in a common start is closed there in both. */
  lemma {:induction false} BalancedAgain(s: string, s': string, open: char, close: char, depth: int, m: Mode, n: nat)
    requires Balanced(s, open, close, depth, m).Some? && Balanced(s, open, close, depth, m).value <= n <= |s|
    requires n <= |s'| && s[..n] == s'[..n] && IsBracket(open) && IsBracket(close) && open != close
    ensures Balanced(s', open, close, depth, m) == Balanced(s, open, close, depth, m)
    decreases |s|
  {
    hide Balanced, Step;
    var k := Balanced(s, open, close, depth, m).value;
    assert s != "" by { NothingBalances(s, open, close, depth, m); }
    assert s[0] == s[..n][0] && s'[0] == s'[..n][0];
    if m == Code && s[0] == close && depth == 1 {
      ClosesHere(s, open, close, m);
      ClosesHere(s', open, close, m);
    } else {
      BalancedStep(s, open, close, depth, m);
      BalancedStep(s', open, close, depth, m);
      var (m', i) := Step(s, m);
      var depth' := DepthOf(s, open, close, depth, m);
      assert s[i..] != "" by { NothingBalances(s[i..], open, close, depth', m'); }
      SameStepWithin(s, s', m, n);
      SlicesAgree(s, s', n, i);
      BalancedAgain(s[i..], s'[i..], open, close, depth', m', n - i);
    }
  }

  lemma NothingBalances(s: string, open: char, close: char, depth: int, m: Mode)
    requires Balanced(s, open, close, depth, m).Some?
    ensures s != "" && Balanced(s, open, close, depth, m).value >= 1
  {
  }

  lemma ClosesHere(s: string, open: char, close: char, m: Mode)
    requires s != "" && m == Code && s[0] == close && IsBracket(close) && open != close
    ensures Balanced(s, open, close, 1, m) == Some(1)
  {
  }

  lemma SameStepWithin(s: string, s': string, m: Mode, n: nat)
    requires 2 <= n <= |s| && n <= |s'| && s[..n] == s'[..n]
    ensures Step(s', m) == Step(s, m)
  {
    assert s[0] == s[..n][0] && s[1] == s[..n][1] && s'[0] == s'[..n][0] && s'[1] == s'[..n][1];
  }

  /** What makes the value s starts with end inside its first n characters. */
  predicate EndsWithin(s: string, n: nat) {
    s != "" && TrueLength(s).Some? && n <= |s| &&
    var k := TrueLength(s).value;
    if Delimited(s[0]) then 1 <= k <= n
    else k < n && (IsStop(s[k]) || (k + 2 <= n && StartsComment(s[k..])))
  }

  lemma {:induction false} BareAgain(s: string, s': string, n: nat)
    requires Bare(s) < n <= |s| && n <= |s'| && s[..n] == s'[..n]
    requires IsStop(s[Bare(s)]) || (Bare(s) + 2 <= n && StartsComment(s[Bare(s)..]))
    ensures Bare(s') == Bare(s)
    decreases |s|
  {
    assert s[0] == s[..n][0] && s'[0] == s'[..n][0];
    CommentStarts(s);
    CommentStarts(s');
    assert n >= 2 ==> s[1] == s[..n][1] && s'[1] == s'[..n][1];
    if Bare(s) == 0 {
      assert s[0..] == s;
    } else {
      SlicesAgree(s, s', n, 1);
      assert s[1..][Bare(s) - 1..] == s[Bare(s)..];
      BareAgain(s[1..], s'[1..], n - 1);
    }
  }

  lemma TrueLengthAgain(s: string, s': string, n: nat)
    requires EndsWithin(s, n) && n <= |s'| && s[..n] == s'[..n]
    ensures s' != "" && TrueLength(s') == TrueLength(s)
  {
    hide Balanced, StartsComment, ValueLength, Bare;
    assert s[0] == s[..n][0] && s'[0] == s'[..n][0];
    if s[0] == '[' || s[0] == '{' {
      BalancedAgain(s, s', s[0], Closer(s[0]), 0, Code, n);
    } else if s[0] == '"' {
      LengthAgain(s, s', n);
    } else {
      BareAgain(s, s', n);
    }
  }

  /** A value that ends before a quote that spaces lead to ends in front of the spaces. */
  lemma EndsInFront(s: string, b: nat, h: nat)
    requires b <= h < |s| && s[h] == '"' && forall i :: b <= i < h ==> IsSpaceOrTab(s[i])
    requires s != "" && TrueLength(s).Some? && TrueLength(s).value <= h
    ensures EndsWithin(s, b)
  {
    hide Balanced, StartsComment, Bare, ToQuote;
    var k := TrueLength(s).value;
    if s[0] == '[' || s[0] == '{' {
      BalancedEnds(s, s[0], Closer(s[0]), 0, Code);
    } else if s[0] == '"' {
      ToQuoteEnds(s[1..], k - 1);
      AStringEndsTight(s[1..][..k - 1]);
    } else {
      BareEnds(s);
      CommentStarts(s[k..]);
    }
  }

  lemma {:induction false} BalancedEnds(s: string, open: char, close: char, depth: int, m: Mode)
    requires Balanced(s, open, close, depth, m).Some? && IsBracket(close) && open != close
    ensures var k := Balanced(s, open, close, depth, m).value; 1 <= k <= |s| && s[k - 1] == close
    decreases |s|
  {
    hide Balanced, Step;
    NothingBalances(s, open, close, depth, m);
    if m == Code && s[0] == close && depth == 1 {
      ClosesHere(s, open, close, m);
    } else {
      BalancedStep(s, open, close, depth, m);
      var (m', i) := Step(s, m);
      BalancedEnds(s[i..], open, close, DepthOf(s, open, close, depth, m), m');
    }
  }

  lemma BareEnds(s: string)
    ensures Bare(s) < |s| ==> IsStop(s[Bare(s)]) || StartsComment(s[Bare(s)..])
  {
    hide StartsComment;
    if s != "" && !IsStop(s[0]) && !StartsComment(s) {
      BareEnds(s[1..]);
      assert s[1..][Bare(s) - 1..] == s[Bare(s)..];
    } else {
      assert s[0..] == s;
    }
  }

  /** A setting in a common start, with its value, reads alike. */
  lemma FrontReads(text: string, text': string, b: nat, key: string, g: nat, a: nat)
    requires Setting(text, Code, "", Needle(key)) == Some(g) && Setting(text', Code, "", Needle(key)) == Some(g)
    requires b <= |text| && b <= |text'| && text[..b] == text'[..b] && g + |Needle(key)| + a < b
    requires ValueAfter(text[g + |Needle(key)|..]) == Some(a) && ValueAfter(text'[g + |Needle(key)|..]) == Some(a)
    requires EndsWithin(text[g + |Needle(key)| + a..], b - g - |Needle(key)| - a)
    ensures TrueText(text', key) == TrueText(text, key)
  {
    hide Setting, ReadKey, Needle, EndsWithin, ValueAfter;
    FrontReadsAt(text, text', b, g + |Needle(key)|, a);
  }

  lemma FrontReadsAt(text: string, text': string, b: nat, k: nat, a: nat)
    requires k + a < b <= |text| && b <= |text'| && text[..b] == text'[..b]
    requires ValueAfter(text[k..]) == Some(a) && ValueAfter(text'[k..]) == Some(a) && EndsWithin(text[k + a..], b - k - a)
    ensures ReadKey(text', k) == ReadKey(text, k)
  {
    hide ValueAfter, TrueLength;
    SlicesAgree(text, text', b, k + a);
    TrueLengthAgain(text[k + a..], text'[k + a..], b - k - a);
    SameSlice(text, text', b, k + a, k + a + TrueLength(text[k + a..]).value);
  }

  lemma QuoteIsSolid(x: string)
    requires x != "" && x[0] == '"'
    ensures NotColon(x) && Solid(x)
  {
  }

  lemma QuoteMeetsNothing(p: string, x: string)
    requires x != "" && x[0] == '"'
    ensures !Meets(p, x, Code)
  {
  }

  /** Where another setting is, seen from the key that is edited: behind it, or its value wholly before it. */
  predicate TrulyBeside(text: string, key: string, other: string) {
    var h, g := Find(text, Code, Needle(key)), Setting(text, Code, "", Needle(other));
    h.Some? && g.Some? && g.value < h.value ==> TrueSpan(text, other).Some? && TrueSpan(text, other).value.1 <= h.value
  }

  /** Such a value starts, and ends, in front of the spaces before the key. */
  lemma FrontEnds(text: string, key: string, b: nat, h: nat, k: nat)
    requires b <= h < |text| && text[h] == '"' && forall i :: b <= i < h ==> IsSpaceOrTab(text[i])
    requires TrueSpan(text, key).Some? && TrueSpan(text, key).value.1 <= h
    requires k <= |text| && Setting(text, Code, "", Needle(key)) == Some(k - |Needle(key)|)
    ensures var a := ValueAfter(text[k..]); a.Some? && k + a.value < b && EndsWithin(text[k + a.value..], b - k - a.value)
  {
    hide Setting, ValueAfter, TrueLength, Needle, TrueSpan, EndsWithin;
    TrueSpanStarts(text, key);
    ValueStartsAt(text, k);
    FrontEndsAt(text, k + ValueAfter(text[k..]).value, b, h);
  }

  lemma ValueStartsAt(text: string, k: nat)
    requires k <= |text| && ValueAfter(text[k..]).Some?
    ensures var st := k + ValueAfter(text[k..]).value; st < |text| && !IsBlank(text[st])
  {
    hide ValueAfter;
    ValuesStart(text[k..]);
  }

  lemma FrontEndsAt(text: string, st: nat, b: nat, h: nat)
    requires b <= h < |text| && text[h] == '"' && forall i :: b <= i < h ==> IsSpaceOrTab(text[i])
    requires st < |text| && !IsBlank(text[st]) && TrueLength(text[st..]).Some? && st + TrueLength(text[st..]).value <= h
    ensures st < b && EndsWithin(text[st..], b - st)
  {
    var s := text[st..];
    if st == h {
      AQuoteIsLong(s);
    }
    hide TrueLength;
    EndsInFront(s, b - st, h - st);
  }

  lemma AQuoteIsLong(s: string)
    requires s != "" && s[0] == '"' && TrueLength(s).Some?
    ensures TrueLength(s).value >= 1
  {
    hide ToQuote;
  }

  lemma ValuesStart(s: string)
    requires ValueAfter(s).Some?
    ensures !IsBlank(s[ValueAfter(s).value])
  {
    hide Passed;
    var j := Passed(s, Code);
    PassedStops(s[j + 1..], Code);
  }

  lemma {:induction false} PassedStops(s: string, m: Mode)
    requires m != Quote
    ensures Passed(s, m) < |s| ==> !IsBlank(s[Passed(s, m)])
    decreases |s|
  {
    hide Passed, Step, StartsComment;
    if s != "" {
      PassStep(s, m);
      if !(m == Code && !IsBlank(s[0]) && !StartsComment(s)) {
        var (m', n) := Step(s, m);
        PassedStops(s[n..], m');
      }
    }
  }

  // ------------------------------------------------------------ replacing

  lemma ThePiecesArePlain(text: string, key: string)
    requires ValueSpan(text, key).Some?
    ensures var (b, e) := Removed(text, key);
            var (start, end) := ValueSpan(text, key).value;
            var h := Find(text, Code, Needle(key));
            && h.Some? && b <= h.value && h.value + |Needle(key)| <= start <= end <= e
            && AllPlain(text[b..h.value]) && AllPlain(text[h.value + |Needle(key)|..start]) && AllPlain(text[end..e])
  {
    hide Find, ValueSpan, Needle, Trail, Backed, Quiet, AllPlain;
    ThePieces(text, key);
    GapIsPlain(text, key);
    TheSpacesBefore(text, key);
    var h, end := Find(text, Code, Needle(key)).value, ValueSpan(text, key).value.1;
    var b, e := Backed(text[..h]), end + Trail(text[end..]);
    SpacesArePlain(text[b..h]);
    TrailIsPlain(text[end..]);
    assert text[end..][..Trail(text[end..])] == text[end..e];
  }

  lemma SpacesArePlain(s: string)
    requires forall i :: 0 <= i < |s| ==> IsSpaceOrTab(s[i])
    ensures AllPlain(s)
  {
  }

  lemma TrailIsPlain(s: string)
    ensures AllPlain(s[..Trail(s)])
  {
    hide AllPlain, Spaces, OneOf;
    var a := Spaces(s);
    SpacesArePlain(s[..a]);
    OneIsPlain(s[a..], ',');
    var b := a + OneOf(s[a..], ',');
    SpacesArePlain(s[b..][..Spaces(s[b..])]);
    var c := b + Spaces(s[b..]);
    OneIsPlain(s[c..], '\n');
    var d := c + OneOf(s[c..], '\n');
    PlainJoin(s[..a], s[a..][..b - a]);
    PlainJoin(s[..b], s[b..][..c - b]);
    PlainJoin(s[..c], s[c..][..d - c]);
    assert s[..b] == s[..a] + s[a..][..b - a] && s[..c] == s[..b] + s[b..][..c - b] && s[..d] == s[..c] + s[c..][..d - c];
  }

  lemma OneIsPlain(s: string, c: char)
    requires c == ',' || c == '\n'
    ensures OneOf(s, c) <= |s| && AllPlain(s[..OneOf(s, c)])
  {
  }

  lemma PlainJoin(a: string, b: string)
    requires AllPlain(a) && AllPlain(b)
    ensures AllPlain(a + b)
  {
  }

  lemma GapIsPlain(text: string, key: string)
    requires ValueSpan(text, key).Some?
    ensures var h := Find(text, Code, Needle(key));
            && h.Some? && h.value + |Needle(key)| <= ValueSpan(text, key).value.0
            && AllPlain(text[h.value + |Needle(key)|..ValueSpan(text, key).value.0])
  {
    hide Find, ToValue, ValueLength, AllPlain;
    var k := Find(text, Code, Needle(key)).value + |Needle(key)|;
    BlanksAndColon(text[k..]);
    assert text[k..][..ToValue(text[k..]).value] == text[k..ValueSpan(text, key).value.0];
  }

  lemma BlanksAndColon(u: string)
    requires ToValue(u).Some?
    ensures AllPlain(u[..ToValue(u).value])
  {
    hide Blanks;
    var j, a := Blanks(u), ToValue(u).value;
    assert forall i :: j < i < a ==> u[i] == u[j + 1..][i - j - 1];
  }

  /** The edited key with its value, seen from the key. */
  lemma ReadPast(text: string, h: nat, start: nat, end: nat, key: string, item: Item, open: string, other: string)
    requires h + |Needle(key)| <= start <= end <= |text| && text[h..h + |Needle(key)|] == Needle(key)
    requires text[start..end] == Render(item) && AllPlain(text[h + |Needle(key)|..start]) && Valid(item)
    requires NotColon(text[end..]) && open != "" && PlainKey(key) && PlainKey(other) && key != other
    ensures Setting(text[h..], Code, open, Needle(other)) == Shift(end - h, Setting(text[end..], Code, open, Needle(other)))
  {
    hide Setting, Needle, Render, AllPlain, Valid, NotColon, PlainKey;
    var k := h + |Needle(key)|;
    var r := text[end..];
    assert "" + r == r && "" + text[h..] == text[h..];
    assert AllPlain("") by { SpacesArePlain(""); }
    EntryPast("", key, text[k..start], item, "", r, open, other);
    Assembled(text, h, k, start, end);
  }

  /** Replacing a value in a bracket leaves what every setting beside it reads as. */
  lemma ReplacingLeavesEveryReading(text: string, key: string, was: Item, item: Item, other: string)
    requires ValueSpan(text, key).Some? && FindValue(text, key) == Some(Render(was)) && Valid(was) && Valid(item)
    requires PlainKey(key) && PlainKey(other) && key != other && TrulyBeside(text, key, other)
    requires NotColon(text[ValueSpan(text, key).value.1..])
    requires Opens(text[..Find(text, Code, Needle(key)).value], Code, "") != ""
    ensures TrueText(Upsert(text, key, Render(item)).value, other) == TrueText(text, other)
  {
    hide Find, ValueSpan, Needle, Render, Valid, PlainKey, Setting, TrueText, NotColon, Opens, FindValue, AllPlain, Removed, TrueSpan, Quiet, EndMode, Solid, Meets;
    ThePieces(text, key);
    ThePiecesArePlain(text, key);
    ReadInSpan(text, key);
    var (start, end) := ValueSpan(text, key).value;
    var h, v := Find(text, Code, Needle(key)).value, Render(item);
    var k := h + |Needle(key)|;
    var text' := text[..start] + v + text[end..];
    NeedleStarts(text, h, key);
    FoundFromCode(text, Code, Needle(key));
    Edited(text, start, v, end);
    Prefixes(text, text', start, h);
    SameSlice(text, text', start, h, k);
    SameSlice(text, text', start, k, start);
    var open := Opens(text[..h], Code, "");
    ReadPast(text, h, start, end, key, was, open, other);
    ReadPast(text', h, start, start + |v|, key, item, open, other);
    NeedleStarts(text', h, key);
    QuoteMeetsNothing(text[..h], text[h..]);
    QuoteMeetsNothing(text[..h], text'[h..]);
    QuoteIsSolid(text'[h..]);
    ReadsBesideAlike(text, text', h, h, end, start + |v|, other);
  }

  /** Two texts with a common start that ends in code, and a common end, from which the setting reads alike. */
  lemma ReadsBesideAlike(text: string, text': string, b: nat, h: nat, e: nat, e': nat, other: string)
    requires b <= h < |text| && text[h] == '"' && forall i :: b <= i < h ==> IsSpaceOrTab(text[i])
    requires b <= |text'| && text[..b] == text'[..b] && EndMode(text[..b], Code) == Code && PlainKey(other)
    requires !Meets(text[..b], text[b..], Code) && !Meets(text[..b], text'[b..], Code) && NotColon(text'[b..])
    requires var g := Setting(text, Code, "", Needle(other)); g.Some? && g.value < h ==> TrueSpan(text, other).Some? && TrueSpan(text, other).value.1 <= h
    requires b <= e <= |text| && b <= e' <= |text'| && text[e..] == text'[e'..]
    requires var open := Opens(text[..b], Code, "");
             && Setting(text[b..], Code, open, Needle(other)) == Shift(e - b, Setting(text[e..], Code, open, Needle(other)))
             && Setting(text'[b..], Code, open, Needle(other)) == Shift(e' - b, Setting(text'[e'..], Code, open, Needle(other)))
    ensures TrueText(text', other) == TrueText(text, other)
  {
    hide *;
    assert text[..b] + text[b..] == text && text[..b] + text'[b..] == text';
    SpacesThenQuote(text, b, h);
    SettingsInFront(text[..b], text[b..], text'[b..], Code, "", other);
    if Setting(text, Code, "", Needle(other)).Some? && Setting(text, Code, "", Needle(other)).value < b {
      ReadsInFrontAlike(text, text', b, h, other);
    } else {
      ReadsBehindAlike(text, text', b, e, e', Opens(text[..b], Code, ""), other);
    }
  }

  lemma ReadsInFrontAlike(text: string, text': string, b: nat, h: nat, other: string)
    requires b <= h < |text| && text[h] == '"' && forall i :: b <= i < h ==> IsSpaceOrTab(text[i])
    requires b <= |text'| && text[..b] == text'[..b] && TrueSpan(text, other).Some? && TrueSpan(text, other).value.1 <= h
    requires text == text[..b] + text[b..] && text' == text[..b] + text'[b..]
    requires SetAlike(text[..b], text[b..], text'[b..], Code, "", Needle(other))
    requires Setting(text, Code, "", Needle(other)).Some? && Setting(text, Code, "", Needle(other)).value < b
    ensures TrueText(text', other) == TrueText(text, other)
  {
    hide Setting, Needle, TrueSpan, TrueText, ValueAfter, EndsWithin;
    var g := Setting(text, Code, "", Needle(other)).value;
    var k := g + |Needle(other)|;
    FrontEnds(text, other, b, h, k);
    FrontReads(text, text', b, other, g, ValueAfter(text[k..]).value);
  }

  lemma ReadsBehindAlike(text: string, text': string, b: nat, e: nat, e': nat, open: string, other: string)
    requires b <= e <= |text| && b <= e' <= |text'| && text[e..] == text'[e'..] && text[..b] == text'[..b]
    requires text == text[..b] + text[b..] && text' == text[..b] + text'[b..]
    requires SetAlike(text[..b], text[b..], text'[b..], Code, "", Needle(other)) && open == Opens(text[..b], Code, "")
    requires !(Setting(text, Code, "", Needle(other)).Some? && Setting(text, Code, "", Needle(other)).value < b)
    requires Setting(text[b..], Code, open, Needle(other)) == Shift(e - b, Setting(text[e..], Code, open, Needle(other)))
    requires Setting(text'[b..], Code, open, Needle(other)) == Shift(e' - b, Setting(text'[e'..], Code, open, Needle(other)))
    ensures TrueText(text', other) == TrueText(text, other)
  {
    hide Setting, Needle, ReadFrom, Opens, ValueAfter;
    var p, x, x' := text[..b], text[b..], text'[b..];
    ReadShifted(text, p, x, other, Code, "", Code, open);
    ReadShifted(text', p, x', other, Code, "", Code, open);
    assert x == x[..e - b] + text[e..] && x' == x'[..e' - b] + text'[e'..];
    ReadShifted(x, x[..e - b], text[e..], other, Code, open, Code, open);
    ReadShifted(x', x'[..e' - b], text'[e'..], other, Code, open, Code, open);
  }

  lemma SpacesThenQuote(text: string, b: nat, h: nat)
    requires b <= h < |text| && text[h] == '"' && forall i :: b <= i < h ==> IsSpaceOrTab(text[i])
    ensures NotColon(text[b..]) && Solid(text[b..])
  {
    hide Passed;
    var x := text[b..];
    BlanksAre(x, h - b);
    PassedBlanks(x);
    CommentStarts(x[h - b..]);
  }

  // ------------------------------------------------------------ taking out

  predicate OfATrail(t: string) {
    forall i :: 0 <= i < |t| ==> IsSpaceOrTab(t[i]) || t[i] == ',' || t[i] == '\n'
  }

  lemma {:induction false} NoColonBehindATrail(t: string, r: string)
    requires OfATrail(t) && NotColon(r)
    ensures NotColon(t + r)
    decreases |t|
  {
    hide Passed;
    var s := t + r;
    if t == "" {
      assert s == r;
    } else {
      PassStep(s, Code);
      CommentStarts(s);
      assert s[0] == t[0] && s[1..] == t[1..] + r;
      NoColonBehindATrail(t[1..], r);
      assert IsBlank(s[0]) ==> Passed(s, Code) == 1 + Passed(s[1..], Code);
    }
  }

  lemma TrailIsATrail(s: string)
    ensures OfATrail(s[..Trail(s)])
  {
    var a := Spaces(s);
    var b := a + OneOf(s[a..], ',');
    var c := b + Spaces(s[b..]);
    assert forall i :: b <= i < c ==> s[i] == s[b..][i - b];
    assert c < |s| ==> s[c..][0] == s[c];
    assert a < |s| ==> s[a..][0] == s[a];
  }

  lemma TheTrail(text: string, key: string)
    requires ValueSpan(text, key).Some?
    ensures var end, e := ValueSpan(text, key).value.1, Removed(text, key).1; end <= e && OfATrail(text[end..e])
  {
    hide Find, ValueSpan, Needle, Trail, Backed;
    var end := ValueSpan(text, key).value.1;
    TrailIsATrail(text[end..]);
    assert text[end..][..Trail(text[end..])] == text[end..end + Trail(text[end..])];
  }

  /** What goes, seen from the spaces before the key. */
  lemma RemovedPast(text: string, key: string, was: Item, open: string, other: string)
    requires ValueSpan(text, key).Some? && FindValue(text, key) == Some(Render(was)) && Valid(was)
    requires PlainKey(key) && PlainKey(other) && open != "" && (key != other || open != "{")
    requires NotColon(text[Removed(text, key).1..])
    ensures var (b, e) := Removed(text, key);
            b <= e && Setting(text[b..], Code, open, Needle(other)) == Shift(e - b, Setting(text[e..], Code, open, Needle(other)))
  {
    hide Find, ValueSpan, Needle, Removed, PlainKey, Valid, Render, FindValue, Setting, AllPlain, NotColon, OfATrail, Quiet;
    ThePieces(text, key);
    ThePiecesArePlain(text, key);
    ReadInSpan(text, key);
    TheTrail(text, key);
    var (b, e) := Removed(text, key);
    var (start, end) := ValueSpan(text, key).value;
    var h := Find(text, Code, Needle(key)).value;
    var k := h + |Needle(key)|;
    NoColonBehindATrail(text[end..e], text[e..]);
    EntryPast(text[b..h], key, text[k..start], was, text[end..e], text[e..], open, other);
    Reassembled(text, b, h, k, start, end, e);
  }

  lemma NotShifted(o: Option<nat>)
    ensures Shift(0, o) == o
  {
  }

  /** Taking a setting out of a bracket leaves what every setting beside it reads as. */
  lemma RemovingLeavesEveryReading(text: string, key: string, was: Item, other: string)
    requires ValueSpan(text, key).Some? && FindValue(text, key) == Some(Render(was)) && Valid(was)
    requires PlainKey(key) && PlainKey(other) && key != other && TrulyBeside(text, key, other)
    requires var (b, e) := Removed(text, key);
             !Meets(text[..b], text[e..], Code) && NotColon(text[e..]) && Opens(text[..b], Code, "") != ""
    ensures WithoutKey(text, key).Some? && TrueText(WithoutKey(text, key).value, other) == TrueText(text, other)
  {
    hide *;
    WhatIsCut(text, key);
    BesideIs(text, key, other);
    var (b, e) := Removed(text, key);
    RemovedPast(text, key, was, Opens(text[..b], Code, ""), other);
    CutReadsAlike(text, b, Find(text, Code, Needle(key)).value, e, other);
  }

  lemma BesideIs(text: string, key: string, other: string)
    requires TrulyBeside(text, key, other) && Find(text, Code, Needle(key)).Some?
    ensures var g := Setting(text, Code, "", Needle(other));
            g.Some? && g.value < Find(text, Code, Needle(key)).value ==>
              TrueSpan(text, other).Some? && TrueSpan(text, other).value.1 <= Find(text, Code, Needle(key)).value
  {
    hide Find, Setting, TrueSpan, Needle;
  }

  /** The cut starts at spaces before a key, in code. */
  lemma WhatIsCut(text: string, key: string)
    requires ValueSpan(text, key).Some?
    ensures var (b, e) := Removed(text, key);
            var h := Find(text, Code, Needle(key));
            && h.Some? && b <= h.value < |text| && text[h.value] == '"' && b <= e && WithoutKey(text, key) == Some(text[..b] + text[e..])
            && (forall i :: b <= i < h.value ==> IsSpaceOrTab(text[i]))
            && EndMode(text[..b], Code) == Code && !Meets(text[..b], text[b..], Code)
  {
    hide *;
    TakenOut(text, key);
    ThePieces(text, key);
    TheSpacesBefore(text, key);
    NothingMeetsTheKey(text, key);
    BeforeIsInCode(text, key);
    NeedleStarts(text, Find(text, Code, Needle(key)).value, key);
  }

  lemma CutReadsAlike(text: string, b: nat, h: nat, e: nat, other: string)
    requires b <= h < |text| && text[h] == '"' && (forall i :: b <= i < h ==> IsSpaceOrTab(text[i])) && b <= e <= |text|
    requires EndMode(text[..b], Code) == Code && PlainKey(other)
    requires !Meets(text[..b], text[b..], Code) && !Meets(text[..b], text[e..], Code) && NotColon(text[e..])
    requires var g := Setting(text, Code, "", Needle(other)); g.Some? && g.value < h ==> TrueSpan(text, other).Some? && TrueSpan(text, other).value.1 <= h
    requires var open := Opens(text[..b], Code, "");
             Setting(text[b..], Code, open, Needle(other)) == Shift(e - b, Setting(text[e..], Code, open, Needle(other)))
    ensures TrueText(text[..b] + text[e..], other) == TrueText(text, other)
  {
    hide *;
    var text' := text[..b] + text[e..];
    assert text'[..b] == text[..b] && text'[b..] == text[e..];
    NotShifted(Setting(text'[b..], Code, Opens(text[..b], Code, ""), Needle(other)));
    ReadsBesideAlike(text, text', b, h, e, b, other);
  }

  // ------------------------------------------------------------ and what is left of it

  /** Where the key is not found in a text no setting of it is. */
  lemma {:induction false} NothingFoundNothingSet(p: string, x: string, m: Mode, open: string, needle: string)
    requires EndMode(p, m) == Code && !Meets(p, x, m)
    requires var g := Find(p + x, m, needle); g.Some? ==> |p| <= g.value
    ensures Setting(p + x, m, open, needle) == Shift(|p|, Setting(x, Code, Opens(p, m, open), needle))
    decreases |p|
  {
    hide Setting, Find, Hit, Step, EndMode, Meets, IsKey, Opened;
    if p == "" {
      Nothing(m);
      assert p + x == x;
    } else {
      CodeStep(p, x, m);
      FindStep(p + x, m, needle);
      SettingStep(p + x, m, open, needle);
      OpenedAlike(p, p + x, m, open);
      NothingFoundNothingSet(p[Step(p, m).1..], x, Step(p, m).0, Opened(p, m, open), needle);
    }
  }

  /**
    A key that was taken out is gone exactly when no setting of the same key stands behind
    what went; otherwise that one is left, and reads as it stands there.
   */
  lemma ARemovedKeyIsGoneExactlyWhen(text: string, key: string)
    requires ValueSpan(text, key).Some? && PlainKey(key)
    requires var (b, e) := Removed(text, key); !Meets(text[..b], text[e..], Code)
    ensures var (b, e) := Removed(text, key);
            var left := ReadFrom(text[e..], Code, Opens(text[..b], Code, ""), key);
            && WithoutKey(text, key).Some?
            && TrueText(WithoutKey(text, key).value, key) == left
            && (TrueSpan(WithoutKey(text, key).value, key) == None <==> left == None)
            && (Find(text[e..], Code, Needle(key)).None? ==> left == None)
  {
    hide Find, ValueSpan, Needle, Removed, PlainKey, Meets, Setting, Opens, EndMode, TrueSpan, FoundAlike, ReadKey;
    TakenOut(text, key);
    NothingMeetsTheKey(text, key);
    BeforeIsInCode(text, key);
    var (b, e) := Removed(text, key);
    var p, x, r := text[..b], text[b..], text[e..];
    assert p + x == text;
    PrefixFinds(p, x, r, Code, key);
    NotInFront(p, x, r, key);
    NothingFoundNothingSet(p, r, Code, "", Needle(key));
    ReadShifted(p + r, p, r, key, Code, "", Code, Opens(p, Code, ""));
    TrueTextIsTheSpans(p + r, key);
    TheSettingIsFirstOrBehind(r, Code, Opens(p, Code, ""), Needle(key));
  }

  lemma NotInFront(p: string, x: string, r: string, key: string)
    requires FoundAlike(p, x, r, Code, Needle(key)) && Find(p + x, Code, Needle(key)).Some? && |p| <= Find(p + x, Code, Needle(key)).value
    ensures var g := Find(p + r, Code, Needle(key)); g.Some? ==> |p| <= g.value
  {
    hide Find, Needle;
  }

  /** So one that was found in an inner bracket leaves the setting where it was. */
  lemma AnInnerKeyLeavesTheSetting(text: string, key: string, was: Item)
    requires ValueSpan(text, key).Some? && FindValue(text, key) == Some(Render(was)) && Valid(was) && PlainKey(key)
    requires var (b, e) := Removed(text, key);
             && !Meets(text[..b], text[e..], Code) && NotColon(text[e..])
             && Opens(text[..b], Code, "") != "" && Opens(text[..b], Code, "") != "{"
    ensures WithoutKey(text, key).Some? && TrueText(WithoutKey(text, key).value, key) == TrueText(text, key)
  {
    hide *;
    ARemovedKeyIsGoneExactlyWhen(text, key);
    WhatIsCut(text, key);
    var (b, e) := Removed(text, key);
    RemovedPast(text, key, was, Opens(text[..b], Code, ""), key);
    ReadBehindTheCut(text, b, e, key);
  }

  lemma ReadBehindTheCut(text: string, b: nat, e: nat, key: string)
    requires b <= e <= |text| && EndMode(text[..b], Code) == Code && !Meets(text[..b], text[b..], Code)
    requires Find(text, Code, Needle(key)).Some? && b <= Find(text, Code, Needle(key)).value
    requires var open := Opens(text[..b], Code, "");
             Setting(text[b..], Code, open, Needle(key)) == Shift(e - b, Setting(text[e..], Code, open, Needle(key)))
    ensures TrueText(text, key) == ReadFrom(text[e..], Code, Opens(text[..b], Code, ""), key)
  {
    hide Find, Needle, Meets, Setting, Opens, EndMode, ReadFrom;
    var p, x, r, open := text[..b], text[b..], text[e..], Opens(text[..b], Code, "");
    assert p + x == text && x == x[..e - b] + r;
    NothingFoundNothingSet(p, x, Code, "", Needle(key));
    ReadShifted(text, p, x, key, Code, "", Code, open);
    ReadShifted(x, x[..e - b], r, key, Code, open, Code, open);
  }
}
