/**
  What an edit does to comments. Every character of a text belongs to code, to a string or
  to a comment; an edit leaves the rest of the file alone when every character outside the
  edited value belongs to what it did and no comment goes with the value.
 */
module SettingsComments {
  import opened Strings
  import opened Wrappers
  import opened Settings
  import opened SettingsEdits
  import opened SettingsValues
  import opened SettingsNeighbours

  /** What a token's characters belong to; the end of a line comment's line is code again. */
  function ClassOf(m: Mode, m': Mode): Mode {
    if m == Code || m == Line then m' else m
  }

  function Classes(s: string, m: Mode): (r: seq<Mode>)
    ensures |r| == |s|
    decreases |s|
  {
    if s == "" then []
    else
      var (m', n) := Step(s, m);
      var c := ClassOf(m, m');
      (if n == 1 then [c] else [c, c]) + Classes(s[n..], m')
  }

  /** The mode a scan is in after s. */
  function EndMode(s: string, m: Mode): Mode
    decreases |s|
  {
    if s == "" then m else var (m', n) := Step(s, m); EndMode(s[n..], m')
  }

  predicate NoComments(c: seq<Mode>) {
    forall i :: 0 <= i < |c| ==> c[i] != Line && c[i] != Block
  }

  /** With v for x between p and r: nothing around it changes, and no comment goes with it. */
  predicate Untouched(p: string, x: string, v: string, r: string) {
    var was := Classes(p + x + r, Code);
    && Classes(p + v + r, Code) == was[..|p|] + Classes(v, Code) + was[|p| + |x|..]
    && NoComments(was[|p|..|p| + |x|])
  }

  // ------------------------------------------------------------ texts one after the other

  /** No token can start at the end of s and go on behind it. */
  predicate Tight(s: string, m: Mode) {
    s == "" ||
    var c := s[|s| - 1];
    match EndMode(s, m)
    case Code => c != '/'
    case Block => c != '*'
    case Quote => c != '\\'
    case Line => true
  }

  lemma EndStep(s: string, m: Mode)
    requires s != ""
    ensures var (m', n) := Step(s, m);
            && EndMode(s, m) == EndMode(s[n..], m')
            && Classes(s, m) == (if n == 1 then [ClassOf(m, m')] else [ClassOf(m, m'), ClassOf(m, m')]) + Classes(s[n..], m')
  {
  }

  lemma TightSteps(s: string, r: string, m: Mode)
    requires s != "" && Tight(s, m)
    ensures var (m', n) := Step(s, m); Step(s + r, m) == Step(s, m) && Tight(s[n..], m') && (s + r)[n..] == s[n..] + r
  {
    hide Classes;
    var (m', n) := Step(s, m);
    EndStep(s, m);
    if |s| == 1 {
      assert s[1..] == "";
      Nothing(m');
    } else {
      assert (s + r)[0] == s[0] && (s + r)[1] == s[1];
    }
    assert s[n..] == "" || s[n..][|s| - n - 1] == s[|s| - 1];
  }

  lemma {:induction false} Joined(s: string, r: string, m: Mode)
    requires Tight(s, m)
    ensures Classes(s + r, m) == Classes(s, m) + Classes(r, EndMode(s, m))
    ensures EndMode(s + r, m) == EndMode(r, EndMode(s, m))
    decreases |s|
  {
    hide Classes, EndMode, Tight, Step;
    if s == "" {
      assert s + r == r;
      Nothing(m);
    } else {
      EndStep(s, m);
      EndStep(s + r, m);
      TightSteps(s, r, m);
      var (m', n) := Step(s, m);
      Joined(s[n..], r, m');
    }
  }

  lemma Nothing(m: Mode)
    ensures Classes("", m) == [] && EndMode("", m) == m
  {
  }

  /** Before a comma, a line's end or a closing brace, only an escape in a string can go on. */
  lemma {:induction false} StoppedClasses(s: string, r: string, m: Mode)
    requires r != "" && IsStop(r[0])
    ensures Classes(s + r, m)[..|s|] == Classes(s, m)
    ensures EndMode(s, m) == Code ==> Classes(s + r, m) == Classes(s, m) + Classes(r, Code)
    ensures EndMode(s, m) == Quote ==> Classes(s + r, m)[|s|] == Quote
    decreases |s|
  {
    hide Classes, EndMode, Step;
    if s == "" {
      assert s + r == r;
      Nothing(m);
      InAString(r);
    } else {
      EndStep(s, m);
      EndStep(s + r, m);
      StepBeforeAStop(s, r, m);
      var (m', n) := Step(s, m);
      if Step(s + r, m) == Step(s, m) {
        assert (s + r)[n..] == s[n..] + r;
        StoppedClasses(s[n..], r, m');
      } else {
        assert s[n..] == "";
        Nothing(m');
      }
    }
  }

  lemma InAString(r: string)
    requires r != ""
    ensures Classes(r, Quote)[0] == Quote
  {
  }

  lemma StepBeforeAStop(s: string, r: string, m: Mode)
    requires s != "" && r != "" && IsStop(r[0])
    ensures Step(s + r, m) == Step(s, m) || (m == Quote && |s| == 1 && Step(s, m) == (Quote, 1) && Step(s + r, m) == (Quote, 2))
  {
    assert (s + r)[0] == s[0] && (s + r)[1] == if |s| == 1 then r[0] else s[1];
  }

  /** A scan that meets no comment ends in code or in a string. */
  lemma {:induction false} EndsOutsideComments(s: string, m: Mode)
    requires NoComments(Classes(s, m)) && (m == Code || m == Quote)
    ensures EndMode(s, m) == Code || EndMode(s, m) == Quote
    decreases |s|
  {
    hide Classes, EndMode;
    if s == "" {
      Nothing(m);
    } else {
      EndStep(s, m);
      var (m', n) := Step(s, m);
      assert Classes(s, m)[0] == ClassOf(m, m');
      assert Classes(s, m)[n..] == Classes(s[n..], m');
      assert forall i :: 0 <= i < |s| - n ==> Classes(s[n..], m')[i] == Classes(s, m)[n + i];
      EndsOutsideComments(s[n..], m');
    }
  }

  // ------------------------------------------------------------ what stands in code

  /** A text that starts and ends in code and has no comment. */
  predicate Inert(s: string) {
    EndMode(s, Code) == Code && NoComments(Classes(s, Code)) && Tight(s, Code)
  }

  lemma InertJoin(a: string, b: string)
    requires Inert(a) && Inert(b)
    ensures Inert(a + b)
  {
    hide Classes, EndMode;
    Joined(a, b, Code);
    assert b != "" ==> (a + b)[|a + b| - 1] == b[|b| - 1];
    assert b == "" ==> a + b == a;
  }

  lemma ACharacterIsInert(c: char)
    requires c != '"' && c != '/'
    ensures Inert([c])
  {
    assert [c][1..] == "";
  }

  lemma {:induction false} QuietIsInert(s: string)
    requires Quiet(s)
    ensures Inert(s)
    decreases |s|
  {
    hide Inert;
    if s == "" {
      NothingIsInert();
    } else {
      ACharacterIsInert(s[0]);
      QuietIsInert(s[1..]);
      InertJoin([s[0]], s[1..]);
      assert s == [s[0]] + s[1..];
    }
  }

  lemma NothingIsInert()
    ensures Inert("")
  {
  }

  lemma {:induction false} PiecesAreInAString(ps: seq<Piece>, r: string)
    requires ValidPieces(ps)
    ensures EndMode(RenderPieces(ps) + r, Quote) == EndMode(r, Quote)
    ensures NoComments(Classes(r, Quote)) ==> NoComments(Classes(RenderPieces(ps) + r, Quote))
    decreases |ps|
  {
    hide Classes, EndMode, NoComments;
    var s := RenderPieces(ps) + r;
    if ps == [] {
      assert s == r;
    } else {
      var rest := RenderPieces(ps[1..]) + r;
      var p := RenderPiece(ps[0]);
      assert s == p + rest && s[|p|..] == rest && s[0] == p[0];
      EndStep(s, Quote);
      assert Step(s, Quote) == (Quote, |p|);
      PiecesAreInAString(ps[1..], r);
      NoCommentsBefore(Classes(s, Quote), |p|, Classes(rest, Quote));
    }
  }

  lemma NoCommentsBefore(c: seq<Mode>, n: nat, t: seq<Mode>)
    requires 1 <= n <= 2 && c == (if n == 1 then [Quote] else [Quote, Quote]) + t
    ensures NoComments(t) ==> NoComments(c)
  {
    assert forall i :: n <= i < |c| ==> c[i] == t[i - n];
  }

  lemma AStringIsInert(ps: seq<Piece>)
    requires ValidPieces(ps)
    ensures Inert("\"" + (RenderPieces(ps) + "\""))
  {
    hide Classes, EndMode, RenderPieces, ValidPieces;
    var s := RenderPieces(ps) + "\"";
    var q := "\"" + s;
    assert q[1..] == s && q[0] == '"' && q[|q| - 1] == '"';
    PiecesAreInAString(ps, "\"");
    TheQuoteCloses();
    EndStep(q, Code);
    NoCommentsBefore(Classes(q, Code), 1, Classes(s, Quote));
  }

  lemma TheQuoteCloses()
    ensures EndMode("\"", Quote) == Code && NoComments(Classes("\"", Quote))
  {
    assert "\""[1..] == "";
  }

  /** A JSON value stands in code and has no comment. */
  lemma {:induction false} AnItemIsInert(item: Item)
    requires Valid(item)
    ensures Inert(Render(item))
    decreases item
  {
    hide Inert;
    match item
    case Text(ps) =>
      AStringIsInert(ps);
      assert Render(item) == "\"" + (RenderPieces(ps) + "\"");
    case Literal(text) =>
      QuietIsInert(text);
    case Other(c) =>
      ACharacterIsInert(c);
    case Group(q, items) =>
      ItemsAreInert(items);
      ACharacterIsInert(Open(q));
      ACharacterIsInert(Close(q));
      InertJoin([Open(q)], RenderAll(items));
      InertJoin([Open(q)] + RenderAll(items), [Close(q)]);
  }

  lemma {:induction false} ItemsAreInert(items: seq<Item>)
    requires AllValid(items)
    ensures Inert(RenderAll(items))
    decreases items
  {
    hide Inert;
    if items == [] {
      NothingIsInert();
    } else {
      AnItemIsInert(items[0]);
      ItemsAreInert(items[1..]);
      InertJoin(Render(items[0]), RenderAll(items[1..]));
    }
  }

  lemma AKeyIsInert(key: string)
    requires PlainKey(key)
    ensures Inert(Needle(key))
  {
    hide Inert;
    RawsRender(key);
    AnItemIsInert(Text(Raws(key)));
  }

  lemma AnEntryIsInert(key: string, item: Item, separator: string)
    requires PlainKey(key) && Valid(item) && (separator == "\n" || separator == ",\n")
    ensures Inert(Entry(key, Render(item), separator))
  {
    hide Inert, Quiet, PlainKey, Valid, Render;
    var a, b, v := "\n  " + Needle(key), ": ", Render(item);
    QuietPieces(separator);
    QuietIsInert("\n  ");
    QuietIsInert(b);
    QuietIsInert(separator);
    AKeyIsInert(key);
    AnItemIsInert(item);
    InertJoin("\n  ", Needle(key));
    InertJoin(a, b);
    InertJoin(a + b, v);
    InertJoin(a + b + v, separator);
    assert Entry(key, v, separator) == a + b + v + separator;
  }

  // ------------------------------------------------------------ adding

  /** From p, text put in stands in code; and behind a line comment's start nothing it would have hidden comes out. */
  predicate TakesCode(p: string, r: string) {
    EndMode(p, Code) == Code || (EndMode(p, Code) == Line && (r == "" || r[0] == '\n' || "//" <= r))
  }

  lemma HeadOfClasses(e: string, m: Mode)
    requires e != "" && e[0] == '\n'
    ensures Classes(e, m)[0] == Code <==> m == Code || m == Line
    ensures m == Line ==> Classes(e, Line) == Classes(e, Code) && EndMode(e, Line) == EndMode(e, Code)
  {
  }

  lemma TheCommentIsClosedEarly(r: string)
    ensures Classes(r, Line) == Classes(r, Code) <==> r == "" || r[0] == '\n' || "//" <= r
  {
    hide Step;
    if r != "" {
      EndStep(r, Line);
      EndStep(r, Code);
      StepsOfAComment(r);
      assert Classes(r, Line)[0] == if r[0] == '\n' then Code else Line;
      assert Classes(r, Code)[0] == Step(r, Code).0;
      if "//" <= r {
        EndStep(r[1..], Line);
        assert r[1..][1..] == r[2..];
        assert [Line] + ([Line] + Classes(r[2..], Line)) == [Line, Line] + Classes(r[2..], Line);
      }
    }
  }

  lemma StepsOfAComment(r: string)
    requires r != ""
    ensures Step(r, Line) == (if r[0] == '\n' then Code else Line, 1)
    ensures "//" <= r ==> Step(r, Code) == (Line, 2) && r[1] == '/' && Step(r[1..], Line) == (Line, 1)
    ensures !("//" <= r) ==> Step(r, Code).0 != Line
    ensures r[0] == '\n' ==> Step(r, Code) == (Code, 1)
  {
    if "//" <= r {
      assert r[0] == r[..2][0] && r[1] == r[..2][1];
    }
    if |r| >= 2 && r[0] == '/' && r[1] == '/' {
      assert r[..2] == "//";
    }
  }

  /** An entry put between p and r. */
  lemma AnEntryIsUntouchedExactlyWhen(p: string, e: string, r: string)
    requires Tight(p, Code) && Inert(e) && Tight(e, EndMode(p, Code)) && e != "" && e[0] == '\n'
    ensures Untouched(p, "", e, r) <==> TakesCode(p, r)
  {
    hide Classes, EndMode, Tight;
    var m := EndMode(p, Code);
    var cp, ce, cr := Classes(p, Code), Classes(e, m), Classes(r, EndMode(e, m));
    assert p + "" + r == p + r && p + e + r == p + (e + r);
    Joined(p, r, Code);
    Joined(p, e + r, Code);
    Joined(e, r, m);
    HeadOfClasses(e, m);
    TheCommentIsClosedEarly(r);
    assert (cp + Classes(r, m))[..|p|] == cp && (cp + Classes(r, m))[|p|..] == Classes(r, m);
    var edited, meant := cp + (ce + cr), cp + Classes(e, Code) + Classes(r, m);
    assert edited[|p|..] == ce + cr && meant[|p|..] == Classes(e, Code) + Classes(r, m);
    assert (ce + cr)[..|e|] == ce && (ce + cr)[|e|..] == cr;
    assert (Classes(e, Code) + Classes(r, m))[..|e|] == Classes(e, Code) && (Classes(e, Code) + Classes(r, m))[|e|..] == Classes(r, m);
    HeadOfClasses(e, Code);
  }

  lemma ABraceIsTight(p: string, m: Mode)
    requires EndsInBrace(p)
    ensures Tight(p, m)
  {
  }

  lemma ALineIsTight(e: string, m: Mode)
    requires e != "" && e[|e| - 1] == '\n'
    ensures Tight(e, m)
  {
  }

  /**
    Adding a key leaves all the rest of the file and every comment as they were exactly
    when the first brace is in code, or at the end of a line comment or of a part of one
    that is a comment by itself. Whether the entry is then in the object is another matter
    (`SettingsObject`).
   */
  lemma AddingTouchesNothingElseExactlyWhen(text: string, key: string, item: Item)
    requires ValueSpan(text, key).None? && Trim(text) != "" && IndexOf(text, '{').Some?
    requires PlainKey(key) && Valid(item)
    ensures var o := IndexOf(text, '{').value + 1;
            var p, r := text[..o], text[o..];
            var e := Entry(key, Render(item), Separator(r));
            && Upsert(text, key, Render(item)) == Ok(p + e + r)
            && (Untouched(p, "", e, r) <==> TakesCode(p, r))
  {
    hide ValueSpan, Trim, Inert, Tight, Untouched, TakesCode, PlainKey, Valid, Render;
    var o := IndexOf(text, '{').value + 1;
    var p, r := text[..o], text[o..];
    var e := Entry(key, Render(item), Separator(r));
    ABraceIsTight(p, Code);
    AnEntryIsInert(key, item, Separator(r));
    ALineIsTight(e, EndMode(p, Code));
    AnEntryIsUntouchedExactlyWhen(p, e, r);
  }

  // ------------------------------------------------------------ replacing

  /** Up to where a key is found the text leads back to code. */
  lemma {:induction false} FoundInCode(s: string, m: Mode, needle: string, w: string)
    requires Find(s, m, needle).Some? && w != "" && w[0] == '"'
    ensures EndMode(s[..Find(s, m, needle).value] + w, m) == EndMode(w, Code)
    decreases |s|
  {
    hide Find, EndMode, Step;
    var h := Find(s, m, needle).value;
    FindStep(s, m, needle);
    if Hit(s, m, needle) {
      assert s[..h] + w == w;
    } else {
      var (m', n) := Step(s, m);
      assert n <= h;
      FoundQuote(s[n..], m', needle);
      assert s[h] == s[n..][h - n];
      SameStep(s, h, w, m);
      EndStep(s[..h] + w, m);
      assert (s[..h] + w)[n..] == s[n..][..h - n] + w;
      FoundInCode(s[n..], m', needle, w);
    }
  }

  lemma {:induction false} FoundQuote(s: string, m: Mode, needle: string)
    requires Find(s, m, needle).Some?
    ensures s[Find(s, m, needle).value] == '"'
    decreases |s|
  {
    hide Find, Step;
    FindStep(s, m, needle);
    if !Hit(s, m, needle) {
      var (m', n) := Step(s, m);
      FoundQuote(s[n..], m', needle);
    }
  }

  lemma SameStep(s: string, h: nat, w: string, m: Mode)
    requires 1 <= h < |s| && s[h] == '"' && w != "" && w[0] == '"'
    ensures Step(s[..h] + w, m) == Step(s, m)
  {
    assert (s[..h] + w)[0] == s[0] && (s[..h] + w)[1] == s[1];
  }

  /** A bracket's or a string's text up to where it is ended is again in code, if it met no comment. */
  lemma {:induction false} ABracketEndsInCode(s: string, open: char, close: char, depth: int, q: bool)
    requires ToClosing(s, open, close, depth, q) == Some(|s|) && close != '/' && close != '"'
    requires var m := if q then Quote else Code; NoComments(Classes(s, m))
    ensures EndMode(s, if q then Quote else Code) == Code
    decreases |s|
  {
    hide EndMode, Classes;
    var m := if q then Quote else Code;
    EndStep(s, m);
    var (m', n) := Step(s, m);
    assert Classes(s, m)[0] == ClassOf(m, m');
    assert forall i :: 0 <= i < |s| - n ==> Classes(s[n..], m')[i] == Classes(s, m)[n + i];
    if q || s[0] == '"' || s[0] == open || s[0] != close || depth != 1 {
      var depth' := if q || s[0] == '"' then depth else if s[0] == open then depth + 1 else if s[0] == close then depth - 1 else depth;
      ABracketEndsInCode(s[n..], open, close, depth', m' == Quote);
    } else {
      Nothing(Code);
    }
  }

  lemma {:induction false} AStringEndsInCode(s: string)
    requires ToQuote(s) == Some(|s|)
    ensures EndMode(s, Quote) == Code
    decreases |s|
  {
    hide EndMode;
    EndStep(s, Quote);
    var n := Step(s, Quote).1;
    if s[0] == '"' {
      Nothing(Code);
    } else {
      AStringEndsInCode(s[n..]);
    }
  }

  lemma {:induction false} ABracketEndsTight(s: string, open: char, close: char, depth: int, q: bool)
    requires ToClosing(s, open, close, depth, q) == Some(|s|)
    ensures s[|s| - 1] == close
    decreases |s|
  {
    var n := if q && s[0] == '\\' then 2 else 1;
    if q || s[0] == '"' || s[0] == open || s[0] != close || depth != 1 {
      var q' := if q then s[0] == '\\' || s[0] != '"' else s[0] == '"';
      var depth' := if q || s[0] == '"' then depth else if s[0] == open then depth + 1 else if s[0] == close then depth - 1 else depth;
      ABracketEndsTight(s[n..], open, close, depth', q');
    }
  }

  lemma {:induction false} AStringEndsTight(s: string)
    requires ToQuote(s) == Some(|s|)
    ensures s[|s| - 1] == '"'
    decreases |s|
  {
    if s[0] != '"' {
      AStringEndsTight(s[if s[0] == '\\' then 2 else 1..]);
    }
  }

  /** A bracket or a string is cut off where no token goes on, and in code unless it met a comment. */
  predicate Rounded(x: string) {
    Tight(x, Code) && (NoComments(Classes(x, Code)) ==> EndMode(x, Code) == Code)
  }

  lemma RoundedEnds(x: string)
    ensures Rounded(x) && NoComments(Classes(x, Code)) ==> EndMode(x, Code) == Code
  {
  }

  /** The editor's values: a bracket or string, or whatever stops before r. */
  lemma AValueIsRounded(s: string)
    requires s != "" && ValueLength(s).Some?
    ensures var x, r := s[..ValueLength(s).value], s[ValueLength(s).value..];
            if Delimited(s[0]) then Rounded(x) else r == "" || IsStop(r[0])
  {
    hide Classes, EndMode;
    var x := s[..ValueLength(s).value];
    if s[0] == '[' || s[0] == '{' {
      ToClosingEnds(s, s[0], Closer(s[0]), 0, false, |x|);
      ABracketEndsTight(x, s[0], Closer(s[0]), 0, false);
      if NoComments(Classes(x, Code)) {
        ABracketEndsInCode(x, s[0], Closer(s[0]), 0, false);
      }
    } else if s[0] == '"' {
      ToQuoteEnds(s[1..], |x| - 1);
      assert s[1..][..|x| - 1] == x[1..];
      AStringEndsTight(x[1..]);
      AStringEndsInCode(x[1..]);
      EndStep(x, Code);
      assert x[|x| - 1] == x[1..][|x| - 2];
    }
  }

  lemma TheNewIsInCode(p: string, v: string, r: string)
    requires Tight(p, Code) && EndMode(p, Code) == Code && Inert(v)
    ensures Classes(p + v + r, Code) == Classes(p, Code) + Classes(v, Code) + Classes(r, Code)
  {
    hide Classes, EndMode, Tight;
    assert p + v + r == p + (v + r);
    Joined(p, v + r, Code);
    Joined(v, r, Code);
  }

  lemma AfterAnOldValue(x: string, r: string)
    requires Rounded(x) || r == "" || IsStop(r[0])
    ensures Classes(x + r, Code)[..|x|] == Classes(x, Code)
    ensures NoComments(Classes(x, Code)) ==>
              (Classes(x + r, Code)[|x|..] == Classes(r, Code) <==> r == "" || EndMode(x, Code) == Code)
  {
    hide Classes, EndMode, Tight;
    var c := Classes(x, Code);
    if NoComments(c) {
      EndsOutsideComments(x, Code);
    }
    if Rounded(x) {
      Joined(x, r, Code);
      assert (c + Classes(r, EndMode(x, Code)))[|x|..] == Classes(r, EndMode(x, Code));
    } else if r == "" {
      assert x + r == x;
      Nothing(Code);
    } else {
      StoppedClasses(x, r, Code);
      assert (c + Classes(r, Code))[|x|..] == Classes(r, Code);
      AStopIsCode(r);
      assert Classes(x + r, Code)[|x|] == Classes(x + r, Code)[|x|..][0];
    }
  }

  lemma AStopIsCode(r: string)
    requires r != "" && IsStop(r[0])
    ensures Classes(r, Code)[0] == Code
  {
  }

  /** A value put in the place of another. */
  lemma AValueIsUntouchedExactlyWhen(p: string, x: string, v: string, r: string)
    requires Tight(p, Code) && EndMode(p, Code) == Code && Inert(v)
    requires Rounded(x) || r == "" || IsStop(r[0])
    ensures Untouched(p, x, v, r) <==> NoComments(Classes(x, Code)) && (r == "" || EndMode(x, Code) == Code)
  {
    hide Classes, EndMode, Tight, Inert, Rounded, NoComments;
    assert p + x + r == p + (x + r);
    Joined(p, x + r, Code);
    TheNewIsInCode(p, v, r);
    AfterAnOldValue(x, r);
    var cp, cx, cv, t, cr := Classes(p, Code), Classes(x, Code), Classes(v, Code), Classes(x + r, Code), Classes(r, Code);
    assert (cp + t)[..|p|] == cp;
    assert (cp + t)[|p|..|p| + |x|] == t[..|x|];
    assert (cp + t)[|p| + |x|..] == t[|x|..];
    assert (cp + cv + cr)[|p| + |v|..] == cr && (cp + cv + t[|x|..])[|p| + |v|..] == t[|x|..];
  }

  /** The text up to a value leads back to code. */
  lemma AValueStartsInCode(text: string, key: string)
    requires ValueSpan(text, key).Some? && PlainKey(key)
    ensures var p := text[..ValueSpan(text, key).value.0]; Tight(p, Code) && EndMode(p, Code) == Code
  {
    hide Find, EndMode, Classes, ValueSpan, Quiet, PlainKey, Needle;
    KeyIsBeforeItsValue(text, key);
    var h := Find(text, Code, Needle(key)).value;
    var k, start := h + |Needle(key)|, ValueSpan(text, key).value.0;
    var gap := text[k..start];
    AKeyIsInert(key);
    QuietIsInert(gap);
    InertJoin(Needle(key), gap);
    var w := Needle(key) + gap;
    KeyAndGap(text, h, key, start);
    FoundInCode(text, Code, Needle(key), w);
    assert gap[|gap| - 1] != '/' by { assert Quiet(gap); QuietEnds(gap); }
    assert text[..start][start - 1] == gap[|gap| - 1];
  }

  lemma QuietEnds(s: string)
    requires Quiet(s) && s != ""
    ensures s[|s| - 1] != '/'
  {
  }

  lemma KeyAndGap(text: string, h: nat, key: string, start: nat)
    requires h + |Needle(key)| <= start <= |text| && Needle(key) <= text[h..]
    ensures text[..start] == text[..h] + (Needle(key) + text[h + |Needle(key)|..start])
    ensures Needle(key) != "" && Needle(key)[0] == '"'
  {
    assert text[h..h + |Needle(key)|] == text[h..][..|Needle(key)|] == Needle(key);
  }

  /**
    Replacing a value leaves all the rest of the file and every comment as they were
    exactly when the editor's span holds no comment and, unless the file ends with it,
    closes the strings it opens. A string, an array or an object closes them unless it
    holds a comment.
   */
  lemma ReplacingTouchesNothingElseExactlyWhen(text: string, key: string, item: Item)
    requires ValueSpan(text, key).Some? && PlainKey(key) && Valid(item)
    ensures var (start, end) := ValueSpan(text, key).value;
            var p, x, r := text[..start], text[start..end], text[end..];
            && Upsert(text, key, Render(item)) == Ok(p + Render(item) + r)
            && (Untouched(p, x, Render(item), r) <==> NoComments(Classes(x, Code)) && (r == "" || EndMode(x, Code) == Code))
            && (Delimited(text[start]) && NoComments(Classes(x, Code)) ==> EndMode(x, Code) == Code)
  {
    hide ValueSpan, EndMode, Classes, Tight, PlainKey, Valid, Render, Inert, Untouched, Rounded, NoComments;
    var (start, end) := ValueSpan(text, key).value;
    AValueStartsInCode(text, key);
    AnItemIsInert(item);
    SpanIsRounded(text, key);
    RoundedEnds(text[start..end]);
    AValueIsUntouchedExactlyWhen(text[..start], text[start..end], Render(item), text[end..]);
  }

  lemma SpanIsRounded(text: string, key: string)
    requires ValueSpan(text, key).Some?
    ensures var (start, end) := ValueSpan(text, key).value;
            var r := text[end..];
            if Delimited(text[start]) then Rounded(text[start..end]) else r == "" || IsStop(r[0])
  {
    hide Find, ToValue, ValueLength, Rounded;
    var (start, end) := ValueSpan(text, key).value;
    AValueIsRounded(text[start..]);
    assert text[start..][..end - start] == text[start..end] && text[start..][end - start..] == text[end..];
  }
}
