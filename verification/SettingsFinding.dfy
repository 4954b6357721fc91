/**
  The setting a file has when its comments and brackets are read as such, and when the
  editor's scan finds that one and ends its value where it ends.
 */
module SettingsFinding {
  import opened Strings
  import opened Wrappers
  import opened Settings
  import opened SettingsEdits
  import opened SettingsValues
  import opened SettingsNeighbours
  import opened SettingsComments

  predicate StartsComment(s: string) {
    "//" <= s || "/*" <= s
  }

  /** How many blanks and comments a text starts with. */
  function Passed(s: string, m: Mode): (n: nat)
    requires m != Quote
    ensures n <= |s|
    decreases |s|
  {
    if s == "" || (m == Code && !IsBlank(s[0]) && !StartsComment(s)) then 0
    else
      var (m', n) := Step(s, m);
      n + Passed(s[n..], m')
  }

  /** From after a key to its value, comments and all. */
  function ValueAfter(s: string): (r: Option<nat>)
    ensures r.Some? ==> 1 <= r.value < |s|
  {
    var j := Passed(s, Code);
    if j == |s| || s[j] != ':' then None
    else
      var a := j + 1 + Passed(s[j + 1..], Code);
      if a == |s| then None else Some(a)
  }

  /** The brackets that are open after a token, outermost first. */
  function Opened(s: string, m: Mode, open: string): string
    requires s != ""
  {
    if m != Code then open
    else if s[0] == '{' || s[0] == '[' then open + [s[0]]
    else if (s[0] == '}' || s[0] == ']') && open != "" then open[..|open| - 1]
    else open
  }

  /** A quoted key with a value. */
  predicate IsKey(s: string, needle: string) {
    needle <= s && ValueAfter(s[|needle|..]).Some?
  }

  /** The first place in code where the needle is a key of the outermost object. */
  function Setting(s: string, m: Mode, open: string, needle: string): (r: Option<nat>)
    ensures r.Some? ==> r.value + |needle| <= |s|
    decreases |s|
  {
    if s == "" then None
    else if Hit(s, m, needle) && open == "{" && IsKey(s, needle) then Some(0)
    else
      var (m', n) := Step(s, m);
      Shift(n, Setting(s[n..], m', Opened(s, m, open), needle))
  }

  lemma {:induction false} TheSettingIsAKey(s: string, m: Mode, open: string, needle: string)
    requires Setting(s, m, open, needle).Some?
    ensures IsKey(s[Setting(s, m, open, needle).value..], needle)
    decreases |s|
  {
    hide Setting, Step, Hit, IsKey, Opened;
    SettingStep(s, m, open, needle);
    if Hit(s, m, needle) && open == "{" && IsKey(s, needle) {
      assert s[0..] == s;
    } else {
      var (m', n) := Step(s, m);
      TheSettingIsAKey(s[n..], m', Opened(s, m, open), needle);
      var g := Setting(s[n..], m', Opened(s, m, open), needle).value;
      assert s[n + g..] == s[n..][g..];
    }
  }

  /** The brackets that are open at h. */
  function OpenAt(s: string, m: Mode, open: string, h: nat): string
    decreases |s|
  {
    if s == "" || h == 0 then open
    else
      var (m', n) := Step(s, m);
      OpenAt(s[n..], m', Opened(s, m, open), if n <= h then h - n else 0)
  }

  // ------------------------------------------------------------ where a value starts

  /** Where the editor starts the value. */
  function StartOf(text: string, key: string): (r: Option<nat>)
    ensures r.Some? ==> r.value < |text|
  {
    var i := Find(text, Code, Needle(key));
    if i.None? then None else
      var k := i.value + |Needle(key)|;
      Shift(k, ToValue(text[k..]))
  }

  /** Where the setting's value starts. */
  function TrueStart(text: string, key: string): (r: Option<nat>)
    ensures r.Some? ==> r.value < |text|
  {
    var i := Setting(text, Code, "", Needle(key));
    if i.None? then None else
      var k := i.value + |Needle(key)|;
      assert text[k..] == text[i.value..][|Needle(key)|..];
      Shift(k, ValueAfter(text[k..]))
  }

  lemma {:induction false} PassedBlanks(s: string)
    ensures Passed(s, Code) == Blanks(s) <==> !StartsComment(s[Blanks(s)..])
    ensures Passed(s, Code) >= Blanks(s)
    decreases |s|
  {
    if s != "" && IsBlank(s[0]) {
      assert !StartsComment(s);
      PassedBlanks(s[1..]);
      assert s[1..][Blanks(s[1..])..] == s[Blanks(s)..];
    } else {
      assert s[0..] == s;
    }
  }

  /** The editor reads from the key to the value as it is meant unless a comment stands before the value. */
  lemma ValueAfterIs(s: string)
    requires ToValue(s).Some?
    ensures ValueAfter(s) == ToValue(s) <==> !StartsComment(s[ToValue(s).value..])
  {
    hide Passed, Blanks, StartsComment;
    var j := Blanks(s);
    PassedBlanks(s);
    AColonStartsNoComment(s[j..]);
    var t := s[j + 1..];
    PassedBlanks(t);
    assert t[Blanks(t)..] == s[ToValue(s).value..] by { TailOfTail(s, j + 1, Blanks(t)); }
  }

  lemma AColonStartsNoComment(s: string)
    requires s != "" && s[0] == ':'
    ensures !StartsComment(s)
  {
  }

  lemma SettingStep(s: string, m: Mode, open: string, needle: string)
    ensures Setting(s, m, open, needle) ==
            if s == "" then None
            else if Hit(s, m, needle) && open == "{" && IsKey(s, needle) then Some(0)
            else
              var (m', n) := Step(s, m);
              Shift(n, Setting(s[n..], m', Opened(s, m, open), needle))
  {
    hide IsKey;
  }

  /** The setting is the first place found if that is a key of the outermost object, and otherwise behind it. */
  predicate FirstOrBehind(s: string, m: Mode, open: string, needle: string) {
    var h, g := Find(s, m, needle), Setting(s, m, open, needle);
    && (g.Some? ==> h.Some? && h.value <= g.value)
    && (h.Some? ==> (g == h <==> OpenAt(s, m, open, h.value) == "{" && IsKey(s[h.value..], needle)))
  }

  lemma {:induction false} TheSettingIsFirstOrBehind(s: string, m: Mode, open: string, needle: string)
    ensures FirstOrBehind(s, m, open, needle)
    decreases |s|
  {
    hide Find, Step, Hit, Setting, Opened, FirstOrBehind;
    if s == "" {
      NothingIsSet(m, open, needle);
    } else if Hit(s, m, needle) {
      FirstWhereHit(s, m, open, needle);
    } else {
      var (m', n) := Step(s, m);
      TheSettingIsFirstOrBehind(s[n..], m', Opened(s, m, open), needle);
      BehindAStep(s, m, open, needle);
    }
  }

  lemma FirstWhereHit(s: string, m: Mode, open: string, needle: string)
    requires Hit(s, m, needle)
    ensures FirstOrBehind(s, m, open, needle)
  {
    hide Find, Step, Opened, IsKey, Setting;
    FindStep(s, m, needle);
    SettingStep(s, m, open, needle);
    assert s[0..] == s;
  }

  lemma BehindAStep(s: string, m: Mode, open: string, needle: string)
    requires s != "" && !Hit(s, m, needle)
    requires var (m', n) := Step(s, m); FirstOrBehind(s[n..], m', Opened(s, m, open), needle)
    ensures FirstOrBehind(s, m, open, needle)
  {
    hide Find, Step, Opened, IsKey, Setting, Hit;
    FindStep(s, m, needle);
    SettingStep(s, m, open, needle);
    var (m', n) := Step(s, m);
    var h := Find(s[n..], m', needle);
    if h.Some? {
      assert s[n..][h.value..] == s[n + h.value..];
    }
  }

  lemma NothingIsSet(m: Mode, open: string, needle: string)
    ensures FirstOrBehind("", m, open, needle)
  {
  }

  /** What follows a key: a colon and a value, with no comment before the value. */
  predicate Followed(s: string) {
    ToValue(s).Some? && !StartsComment(s[ToValue(s).value..])
  }

  /**
    A setting that is there is found exactly when the first occurrence of its quoted key in
    code is a key of the outermost object with a value that no comment keeps from it; and
    one that is not there exactly when no such occurrence has a value behind it.
   */
  lemma TheSettingIsFoundExactlyWhen(text: string, key: string)
    ensures var h := Find(text, Code, Needle(key));
            var found := StartOf(text, key) == TrueStart(text, key);
            && (TrueStart(text, key).Some? ==> h.Some?)
            && (h.None? ==> found)
            && (h.Some? ==>
                  var after := text[h.value..][|Needle(key)|..];
                  && (TrueStart(text, key).Some? ==> (found <==> OpenAt(text, Code, "", h.value) == "{" && Followed(after)))
                  && (TrueStart(text, key).None? ==> (found <==> ToValue(after).None?)))
  {
    hide Find, Setting, ToValue, ValueAfter, OpenAt, StartsComment, Needle;
    assert |Needle(key)| >= 2 && Needle(key)[|Needle(key)| - 1] == '"' by { NeedleEnds(key); }
    var needle := Needle(key);
    TheSettingIsFirstOrBehind(text, Code, "", needle);
    var h, g := Find(text, Code, needle), Setting(text, Code, "", needle);
    if h.Some? {
      var k := h.value + |needle|;
      assert text[k..] == text[h.value..][|needle|..];
      if ToValue(text[k..]).Some? {
        ValueAfterIs(text[k..]);
        if g.Some? && g != h {
          TheSettingIsAKey(text, Code, "", needle);
          ALaterKeyHasALaterValue(text, h.value, g.value, needle);
        }
      }
    }
  }

  lemma NeedleEnds(key: string)
    ensures |Needle(key)| >= 2 && Needle(key)[|Needle(key)| - 1] == '"'
  {
  }

  /** A key behind another's has its value behind the other's. */
  lemma ALaterKeyHasALaterValue(text: string, h: nat, g: nat, needle: string)
    requires h < g && g + |needle| <= |text| && |needle| >= 2 && needle[|needle| - 1] == '"' && needle <= text[g..]
    requires ToValue(text[h + |needle|..]).Some?
    ensures h + |needle| + ToValue(text[h + |needle|..]).value <= g + |needle|
  {
    hide ToValue;
    var k := h + |needle|;
    var a := ToValue(text[k..]).value;
    GapIsQuiet(text[k..], a);
    var last := g + |needle| - 1;
    assert text[last] == text[g..][..|needle|][|needle| - 1];
    assert forall i :: k <= i < k + a ==> text[k..][..a][i - k] == text[i];
  }

  // ------------------------------------------------------------ where a value ends

  /** The length of a bracket's text up to and with the one that closes it in code. */
  function Balanced(s: string, open: char, close: char, depth: int, m: Mode): (r: Option<nat>)
    ensures r.Some? ==> 1 <= r.value <= |s|
    decreases |s|
  {
    if s == "" then None
    else
      var (m', n) := Step(s, m);
      if m == Code && s[0] == open then Shift(n, Balanced(s[n..], open, close, depth + 1, m'))
      else if m == Code && s[0] == close then
        if depth == 1 then Some(n) else Shift(n, Balanced(s[n..], open, close, depth - 1, m'))
      else Shift(n, Balanced(s[n..], open, close, depth, m'))
  }

  /** No comment among the first n characters has a quote or one of the two brackets. */
  predicate Silent(s: string, c: seq<Mode>, n: nat, open: char, close: char)
    requires n <= |s| == |c|
  {
    forall i :: 0 <= i < n && (c[i] == Line || c[i] == Block) ==> s[i] != '"' && s[i] != open && s[i] != close
  }

  /** How far Balanced looks. */
  function Span(s: string, open: char, close: char, depth: int, m: Mode): (n: nat)
    ensures n <= |s|
  {
    var r := Balanced(s, open, close, depth, m);
    if r.Some? then r.value else |s|
  }

  /**
    The editor's matcher, which knows strings but not comments, ends a bracket where the
    comment-aware one does, or fails as it does, when no comment on the way has a quote or
    a bracket of the kind.
   */
  lemma {:induction false} TheMatcherIsRight(s: string, square: bool, depth: int, m: Mode)
    requires Silent(s, Classes(s, m), Span(s, Open(square), Close(square), depth, m), Open(square), Close(square))
    ensures ToClosing(s, Open(square), Close(square), depth, m == Quote) == Balanced(s, Open(square), Close(square), depth, m)
    decreases |s|
  {
    hide Classes, EndMode, Balanced, ToClosing, Silent, Step;
    var open, close := Open(square), Close(square);
    if s == "" || (m == Code && s[0] == close && depth == 1) {
      TheMatchersEndAlike(s, open, close, depth, m);
    } else {
      var (m', n) := Step(s, m);
      var depth' := DepthOf(s, open, close, depth, m);
      BalancedStep(s, open, close, depth, m);
      SilentSteps(s, m, Span(s, open, close, depth, m), open, close);
      TheMatcherIsRight(s[n..], square, depth', m');
      StepOfTheMatcher(s, open, close, depth, m);
    }
  }

  function DepthOf(s: string, open: char, close: char, depth: int, m: Mode): int
    requires s != ""
  {
    if m == Code && s[0] == open then depth + 1 else if m == Code && s[0] == close then depth - 1 else depth
  }

  lemma TheMatchersEndAlike(s: string, open: char, close: char, depth: int, m: Mode)
    requires open != close && IsBracket(close) && (s == "" || (m == Code && s[0] == close && depth == 1))
    ensures ToClosing(s, open, close, depth, m == Quote) == Balanced(s, open, close, depth, m)
  {
  }

  lemma BalancedStep(s: string, open: char, close: char, depth: int, m: Mode)
    requires s != "" && open != close && !(m == Code && s[0] == close && depth == 1)
    ensures var (m', n) := Step(s, m);
            Balanced(s, open, close, depth, m) == Shift(n, Balanced(s[n..], open, close, DepthOf(s, open, close, depth, m), m'))
  {
    hide Step;
  }

  lemma SilentSteps(s: string, m: Mode, k: nat, open: char, close: char)
    requires s != "" && Step(s, m).1 <= k <= |s| && Silent(s, Classes(s, m), k, open, close)
    ensures var (m', n) := Step(s, m); Silent(s[n..], Classes(s[n..], m'), k - n, open, close)
    ensures (m == Block || (m == Line && s[0] != '\n')) ==> s[0] != '"' && s[0] != open && s[0] != close
  {
    hide Classes, EndMode, Step, ClassOf, Silent;
    EndStep(s, m);
    var (m', n) := Step(s, m);
    if m == Block || (m == Line && s[0] != '\n') {
      FirstClass(s, m);
    }
    assert Classes(s, m)[0] == ClassOf(m, m');
    assert Classes(s, m)[n..] == Classes(s[n..], m');
    SilentParts(s, Classes(s, m), n, k, open, close);
  }

  lemma FirstClass(s: string, m: Mode)
    requires s != "" && (m == Block || (m == Line && s[0] != '\n'))
    ensures ClassOf(m, Step(s, m).0) == m
  {
  }

  lemma SilentParts(s: string, c: seq<Mode>, n: nat, k: nat, open: char, close: char)
    requires 1 <= n <= k <= |s| == |c| && Silent(s, c, k, open, close)
    ensures Silent(s[n..], c[n..], k - n, open, close)
    ensures c[0] == Line || c[0] == Block ==> s[0] != '"' && s[0] != open && s[0] != close
  {
    assert forall i :: 0 <= i < |s| - n ==> s[n..][i] == s[n + i] && c[n..][i] == c[n + i];
  }

  lemma StepOfTheMatcher(s: string, open: char, close: char, depth: int, m: Mode)
    requires s != "" && IsBracket(open) && IsBracket(close) && open != close && !(m == Code && s[0] == close && depth == 1)
    requires (m == Block || (m == Line && s[0] != '\n')) ==> s[0] != '"' && s[0] != open && s[0] != close
    ensures var (m', n) := Step(s, m);
            ToClosing(s, open, close, depth, m == Quote)
            == Shift(n, ToClosing(s[n..], open, close, DepthOf(s, open, close, depth, m), m' == Quote))
  {
    if |s| >= 2 {
      assert s[2..] == s[1..][1..];
    }
  }

  predicate IsBracket(c: char) {
    c == '[' || c == ']' || c == '{' || c == '}'
  }

  /** Any other value ends where the editor ends it or where a comment starts. */
  function Bare(s: string): (n: nat)
    ensures n <= |s|
  {
    if s == "" || IsStop(s[0]) || StartsComment(s) then 0 else 1 + Bare(s[1..])
  }

  function TrueLength(s: string): (r: Option<nat>)
    requires s != ""
    ensures r.Some? ==> r.value <= |s|
  {
    if s[0] == '[' || s[0] == '{' then Balanced(s, s[0], Closer(s[0]), 0, Code)
    else if s[0] == '"' then ValueLength(s)
    else Some(Bare(s))
  }

  /** The setting's value as it is meant. */
  function TrueSpan(text: string, key: string): Option<(nat, nat)> {
    var start := TrueStart(text, key);
    if start.None? then None
    else
      var n := TrueLength(text[start.value..]);
      if n.None? then None else Some((start.value, start.value + n.value))
  }

  lemma {:induction false} BareIsPlainExactlyWhen(s: string)
    ensures Bare(s) == Plainly(s) <==> forall i :: 0 <= i < Plainly(s) ==> !StartsComment(s[i..])
    ensures Bare(s) <= Plainly(s)
  {
    hide StartsComment;
    if s == "" || IsStop(s[0]) {
    } else {
      var t := s[1..];
      BareIsPlainExactlyWhen(t);
      assert s[0..] == s;
      assert forall i :: 0 <= i <= |t| ==> t[i..] == s[i + 1..];
      if forall i :: 0 <= i < Plainly(s) ==> !StartsComment(s[i..]) {
        forall i | 0 <= i < Plainly(t) ensures !StartsComment(t[i..]) {
          assert !StartsComment(s[i + 1..]);
        }
      }
      if forall i :: 0 <= i < Plainly(t) ==> !StartsComment(t[i..]) {
        forall i | 1 <= i < Plainly(s) ensures !StartsComment(s[i..]) {
          assert !StartsComment(t[i - 1..]);
        }
      }
    }
  }

  /** No comment gets in the way of ending the value s starts with. */
  predicate EndsPlainly(s: string)
    requires s != ""
  {
    if s[0] == '[' || s[0] == '{' then
      Silent(s, Classes(s, Code), Span(s, s[0], Closer(s[0]), 0, Code), s[0], Closer(s[0]))
    else s[0] == '"' || forall i :: 0 <= i < Plainly(s) ==> !StartsComment(s[i..])
  }

  lemma TheLengthIsRightWhen(s: string)
    requires s != ""
    ensures EndsPlainly(s) ==> ValueLength(s) == TrueLength(s)
    ensures s[0] != '[' && s[0] != '{' && ValueLength(s) == TrueLength(s) ==> EndsPlainly(s)
  {
    hide Classes, Balanced, ToClosing, Silent, ToQuote;
    if s[0] == '[' || s[0] == '{' {
      var square := s[0] == '[';
      assert s[0] == Open(square) && Closer(s[0]) == Close(square);
      if EndsPlainly(s) {
        TheMatcherIsRight(s, square, 0, Code);
      }
    } else {
      BareIsPlainExactlyWhen(s);
    }
  }

  /**
    Where a setting is found, its value is read and replaced as it is meant when no comment
    gets in the way: for a bracket, none within it with a quote or a bracket of its kind;
    for anything but a bracket or a string, none before the comma or the end of its line,
    and then only so.
   */
  lemma TheSpanIsTheSettingsWhen(text: string, key: string)
    requires StartOf(text, key) == TrueStart(text, key)
    ensures StartOf(text, key).None? ==> ValueSpan(text, key) == TrueSpan(text, key) == None
    ensures StartOf(text, key).Some? ==>
              var s := text[StartOf(text, key).value..];
              && (EndsPlainly(s) ==> ValueSpan(text, key) == TrueSpan(text, key))
              && (s[0] != '[' && s[0] != '{' && ValueSpan(text, key) == TrueSpan(text, key) ==> EndsPlainly(s))
  {
    hide Find, ToValue, ValueLength, TrueLength, TrueStart, EndsPlainly;
    var start := StartOf(text, key);
    if start.Some? {
      var s := text[start.value..];
      TheLengthIsRightWhen(s);
      if s[0] != '[' && s[0] != '{' {
        SomeLength(s);
      }
    }
  }

  lemma SomeLength(s: string)
    requires s != "" && s[0] != '[' && s[0] != '{'
    ensures ValueLength(s).None? <==> TrueLength(s).None?
  {
  }

  // ------------------------------------------------------------ files that show it

  /** Brackets in a comment may make up for each other, so the condition on them is not a necessary one. */
  lemma BracketsInACommentMayMatch()
    ensures var s := "[/*[]*/]"; ValueLength(s) == TrueLength(s) == Some(8) && !EndsPlainly(s)
  {
    hide Balanced, ToClosing, Silent, Classes;
    TheCommentIsSkipped();
    TheCommentIsMatched();
    assert Closer('[') == ']';
  }

  lemma TheCommentIsSkipped()
    ensures var s := "[/*[]*/]"; Balanced(s, '[', ']', 0, Code) == Some(8) && !Silent(s, Classes(s, Code), 8, '[', ']')
  {
    hide Balanced, Classes, Step;
    var s, b, c, d := "[/*[]*/]", "[]*/]", "]*/]", "*/]";
    assert s[1..] == "/*[]*/]" && s[1..][2..] == b && b[1..] == c && c[1..] == d && d[2..] == "]" && "]"[1..] == "";
    StepsOfTheComment();
    TheMatchersEndAlike("]", '[', ']', 1, Code);
    BalancedStep(d, '[', ']', 1, Block);
    BalancedStep(c, '[', ']', 1, Block);
    BalancedStep(b, '[', ']', 1, Block);
    BalancedStep(s[1..], '[', ']', 1, Code);
    BalancedStep(s, '[', ']', 0, Code);
    EndStep(s, Code);
    EndStep(s[1..], Code);
    EndStep(b, Block);
    assert Classes(s, Code)[3] == Block && s[3] == '[';
  }

  lemma StepsOfTheComment()
    ensures Step("[/*[]*/]", Code) == (Code, 1) && Step("/*[]*/]", Code) == (Block, 2)
    ensures Step("[]*/]", Block) == (Block, 1) && Step("]*/]", Block) == (Block, 1) && Step("*/]", Block) == (Code, 2)
    ensures ToClosing("]", '[', ']', 1, false) == Some(1)
  {
  }

  lemma TheCommentIsMatched()
    ensures ToClosing("[/*[]*/]", '[', ']', 0, false) == Some(8)
  {
    hide ToClosing;
    var s, t := "[/*[]*/]", "[]*/]";
    ClosingSteps(s, 0, '[', ']', 0, false);
    ClosingSteps(s, 1, '[', ']', 1, false);
    ClosingSteps(s, 2, '[', ']', 1, false);
    ClosingSteps(s, 3, '[', ']', 1, false);
    ClosingSteps(s, 4, '[', ']', 2, false);
    ClosingSteps(s, 5, '[', ']', 1, false);
    ClosingSteps(s, 6, '[', ']', 1, false);
    ClosingSteps(s, 7, '[', ']', 1, false);
    assert s[0..] == s;
  }
}
