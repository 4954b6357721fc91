/** Where an edit's promises end: files with comments, strings or keys that it takes for something else. */
module SettingsLimits {
  import opened Strings
  import opened Wrappers
  import opened Settings
  import opened SettingsEdits
  import opened SettingsValues
  import opened SettingsNeighbours
  import opened SettingsComments
  import opened SettingsFinding
  import opened SettingsObject
  import opened SettingsRemoval
  import opened SettingsReading

  /** No block comment ends in s. */
  predicate EndsNoComment(s: string) {
    forall i :: 0 <= i < |s| - 1 ==> Apart(s[i], s[i + 1])
  }

  predicate Apart(a: char, b: char) {
    a != '*' || b != '/'
  }

  lemma EndsNoCommentJoins(a: string, b: string)
    requires EndsNoComment(a) && EndsNoComment(b) && (a == "" || b == "" || Apart(a[|a| - 1], b[0]))
    ensures EndsNoComment(a + b)
  {
    var s := a + b;
    forall i | 0 <= i < |s| - 1 ensures Apart(s[i], s[i + 1]) {
      if i < |a| - 1 {
        assert s[i] == a[i] && s[i + 1] == a[i + 1];
      } else if i >= |a| {
        assert s[i] == b[i - |a|] && s[i + 1] == b[i - |a| + 1];
      } else {
        assert s[i + 1] == b[0];
      }
    }
  }

  lemma EntryEndsNoComment(key: string, value: string, separator: string)
    requires EndsNoComment(key) && EndsNoComment(value) && WellFormed(value)
    requires separator == "\n" || separator == ",\n"
    ensures EndsNoComment(Entry(key, value, separator))
  {
    hide EndsNoComment;
    PiecesEndNoComment(separator);
    var a, b := "\n  \"", "\": ";
    EndsNoCommentJoins(a, key);
    EndsNoCommentJoins(a + key, b);
    EndsNoCommentJoins(a + key + b, value);
    EndsNoCommentJoins(a + key + b + value, separator);
    assert Entry(key, value, separator) == a + key + b + value + separator;
  }

  lemma PiecesEndNoComment(separator: string)
    requires separator == "\n" || separator == ",\n"
    ensures EndsNoComment("\n  \"") && EndsNoComment("\": ") && EndsNoComment(separator)
  {
  }

  /** Inside a block comment, a text that does not end it is passed over. */
  lemma {:induction false} TheCommentGoesOn(e: string, r: string, needle: string)
    requires EndsNoComment(e) && (e == "" || e[|e| - 1] != '*')
    ensures Find(e + r, Block, needle) == Shift(|e|, Find(r, Block, needle))
    decreases |e|
  {
    hide Find;
    if e == "" {
      assert e + r == r;
    } else {
      FindStep(e + r, Block, needle);
      assert |e| > 1 ==> Apart(e[0], e[1]) && (e + r)[1] == e[1];
      assert (e + r)[1..] == e[1..] + r;
      forall i | 0 <= i < |e| - 2 ensures Apart(e[1..][i], e[1..][i + 1]) {
        assert Apart(e[i + 1], e[i + 1 + 1]);
      }
      TheCommentGoesOn(e[1..], r, needle);
    }
  }

  /** A key that could not be read stays so when text is put into a comment before it. */
  lemma InsertedInAComment(p: string, e: string, r: string, key: string)
    requires EndsInBrace(p) && HeadMode(p, Code) == Some(Block)
    requires EndsNoComment(e) && (e == "" || e[|e| - 1] != '*')
    requires ValueSpan(p + r, key).None?
    ensures ValueSpan(p + e + r, key).None?
  {
    hide Find, SpanAt, HeadMode, Needle, EndsInBrace, EndsNoComment;
    var needle := Needle(key);
    HeadIsScannedAlike(p, r, Code, needle);
    assert p + e + r == p + (e + r);
    HeadIsScannedAlike(p, e + r, Code, needle);
    TheCommentGoesOn(e, r, needle);
    SpanWhereFound(p + r, key);
    SpanWhereFound(p + e + r, key);
    var x := Find(r, Block, needle);
    if x.Some? {
      SameTail(p, e, r, x.value, needle);
    }
  }

  lemma SameTail(p: string, e: string, r: string, x: nat, needle: string)
    requires x + |needle| <= |r| && SpanAt(p + r, |p| + x, needle).None?
    ensures SpanAt(p + e + r, |p| + |e| + x, needle).None?
  {
    hide ToValue, ValueLength;
    var a, b := p + r, p + e + r;
    var k := x + |needle|;
    assert a[|p| + k..] == r[k..] == b[|p| + |e| + k..];
    var v := ToValue(r[k..]);
    if v.Some? {
      assert a[|p| + k + v.value..] == r[k + v.value..] == b[|p| + |e| + k + v.value..];
    }
  }

  /**
    When an added key reads back, for every file that opens no string before its first
    brace: exactly when that brace is not inside a block comment.
   */
  lemma AnAddedKeyReadsBackExactlyWhen(text: string, key: string, value: string)
    requires WellFormed(value) && ValueSpan(text, key).None? && Trim(text) != ""
    requires IndexOf(text, '{').Some? && HeadMode(text[..IndexOf(text, '{').value + 1], Code).Some?
    requires EndsNoComment(key) && EndsNoComment(value)
    ensures Upsert(text, key, value).Ok?
    ensures FindValue(Upsert(text, key, value).value, key) == Some(value) <==> OpensOutsideComments(text)
  {
    hide ValueSpan, HeadMode, Trim, WellFormed, Entry, EndsNoComment;
    if OpensOutsideComments(text) {
      AnEditReadsBack(text, key, value);
    } else {
      var o := IndexOf(text, '{').value + 1;
      var p, r := text[..o], text[o..];
      assert p + r == text;
      var e := Entry(key, value, Separator(r));
      EntryEndsNoComment(key, value, Separator(r));
      EntryEndsItsLine(key, value, Separator(r));
      InsertedInAComment(p, e, r, key);
    }
  }

  lemma EntryEndsItsLine(key: string, value: string, separator: string)
    requires separator == "\n" || separator == ",\n"
    ensures var e := Entry(key, value, separator); e != "" && e[|e| - 1] == '\n'
  {
  }

  /** So a file whose first brace is commented out takes a setting that is never read. */
  lemma ACommentedBraceTakesTheSetting()
    ensures var text := "/*{*/{}";
            && Upsert(text, "k", "\"\"").Ok?
            && FindValue(Upsert(text, "k", "\"\"").value, "k") != Some("\"\"")
  {
    hide *;
    TheCommentedBrace();
    TheEmptyString();
    AnAddedKeyReadsBackExactlyWhen("/*{*/{}", "k", "\"\"");
  }

  lemma TheEmptyString()
    ensures WellFormed("\"\"") && EndsNoComment("k") && EndsNoComment("\"\"")
  {
    assert "\"\""[1..] == "\"";
  }

  lemma TheCommentedBrace()
    ensures var text := "/*{*/{}";
            && ValueSpan(text, "k").None? && Trim(text) != "" && IndexOf(text, '{') == Some(2)
            && HeadMode(text[..3], Code) == Some(Block) && !OpensOutsideComments(text)
  {
    hide Find, TrimLeft, TrimRight;
    var text := "/*{*/{}";
    NoQuoteNoKey(text, Code, Needle("k"));
    assert text == "/*{" + "*/{}";
    TheCommentOpens();
    TrimKeeps(text);
    IndexIs(text, '{', 2);
    assert text[..3] == "/*{";
  }

  lemma TheCommentOpens()
    ensures HeadMode("/*{", Code) == Some(Block)
  {
    assert "/*{"[2..] == "{";
    assert "{"[1..] == "";
    assert HeadMode("{", Block) == Some(Block);
  }

  lemma {:induction false} IndexIs(s: string, c: char, i: nat)
    requires i < |s| && s[i] == c && forall j :: 0 <= j < i ==> s[j] != c
    ensures IndexOf(s, c) == Some(i)
  {
    if i > 0 {
      IndexIs(s[1..], c, i - 1);
    }
  }

  lemma TrimKeeps(s: string)
    requires s != "" && !IsSpace(s[0]) && !IsSpace(s[|s| - 1])
    ensures Trim(s) == s
  {
  }

  /** Brackets are matched without regard to comments: one in a comment ends the value early, and the rest stays. */
  lemma ABracketInACommentEndsTheValue()
    ensures ValueSpan("{\"k\":[//]\n]}", "k") == Some((5, 9))
    ensures Upsert("{\"k\":[//]\n]}", "k", "[]") == Ok("{\"k\":[]\n]}")
  {
    hide Find, ToClosing, ToValue;
    var text := "{\"k\":[//]\n]}";
    TheKeyIsAfterTheBrace(text[1..]);
    assert text[1..] == "\"k\":[//]\n]}" && text[4..] == ":[//]\n]}" && text[5..] == "[//]\n]}";
    FindStep(text, Code, "\"k\"");
    assert Needle("k") == "\"k\"";
    TheCommentedBracketCloses();
    assert text[..5] + "[]" + text[9..] == "{\"k\":[]\n]}";
  }

  lemma TheKeyIsAfterTheBrace(s: string)
    requires s == "\"k\":[//]\n]}"
    ensures Find(s, Code, "\"k\"") == Some(0)
  {
  }

  lemma TheCommentedBracketCloses()
    ensures ToClosing("[//]\n]}", '[', ']', 0, false) == Some(4)
    ensures ToValue(":[//]\n]}") == Some(1)
  {
    hide ToClosing, ToValue;
    var s := "[//]\n]}";
    ClosingSteps(s, 0, '[', ']', 0, false);
    ClosingSteps(s, 1, '[', ']', 1, false);
    ClosingSteps(s, 2, '[', ']', 1, false);
    ClosingSteps(s, 3, '[', ']', 1, false);
    assert s[0..] == s && ":" + s == ":[//]\n]}";
    ToTheValue(s);
  }

  // ------------------------------------------------------------ a comment that is opened

  lemma {:induction false} ALineIsPassed(c: string, r: string, needle: string)
    requires '\n' !in c
    ensures Find(c + ("\n" + r), Line, needle) == Shift(|c| + 1, Find(r, Code, needle))
    decreases |c|
  {
    hide Find;
    var s := c + ("\n" + r);
    FindStep(s, Line, needle);
    if c == "" {
      assert s[1..] == r;
    } else {
      assert s[1..] == c[1..] + ("\n" + r);
      ALineIsPassed(c[1..], r, needle);
    }
  }

  lemma FoundAtOnce(needle: string, r: string)
    requires needle != "" && needle[0] == '"'
    ensures Find(needle + r, Code, needle) == Some(0)
  {
  }

  /** A digit that is a key's value is read. */
  lemma ADigitIsRead(text: string, i: nat, needle: string)
    requires i + |needle| + 3 <= |text| && '0' <= text[i + |needle| + 1] <= '9'
    requires text[i + |needle|] == ':' && text[i + |needle| + 2] == '}'
    ensures SpanAt(text, i, needle) == Some((i + |needle| + 1, i + |needle| + 2))
  {
    var k := i + |needle|;
    var u := text[k..];
    BlanksAre(u, 0);
    BlanksAre(u[1..], 0);
    assert text[k + 1..][0] == text[k + 1] && text[k + 1..][1] == '}';
    assert Plainly(text[k + 1..]) == 1;
  }

  lemma NeedleLength(key: string)
    ensures |Needle(key)| == |key| + 2
  {
  }

  lemma ADigitIsTheValue(text: string, key: string, a: nat)
    requires |key| + 3 <= a < |text| - 1 && text[a - 1] == ':' && '0' <= text[a] <= '9' && text[a + 1] == '}'
    ensures Find(text, Code, Needle(key)) == Some(a - |key| - 3) ==>
              ValueSpan(text, key) == Some((a, a + 1)) && FindValue(text, key) == Some([text[a]])
  {
    hide *;
    NeedleLength(key);
    ADigitIsRead(text, a - |key| - 3, Needle(key));
    SpanWhereFound(text, key);
    if ValueSpan(text, key) == Some((a, a + 1)) {
      ADigitInItsSpan(text, key, a);
    }
  }

  lemma ADigitInItsSpan(text: string, key: string, a: nat)
    requires ValueSpan(text, key) == Some((a, a + 1)) && a < |text|
    ensures FindValue(text, key) == Some([text[a]])
  {
    hide ValueSpan;
    assert text[a..a + 1] == [text[a]];
  }

  /** An entry put behind a brace in a line comment opens the rest of the comment, which then hides a setting. */
  lemma AnOpenedCommentHidesASetting()
    ensures var text := "//{\"x\":2}\n{\"x\":1}";
            && OpensOutsideComments(text)
            && FindValue(text, "x") == Some("1")
            && Upsert(text, "k", "0") == Ok("//{" + "\n  \"k\": 0,\n" + "\"x\":2}\n{\"x\":1}")
            && FindValue(Upsert(text, "k", "0").value, "x") == Some("2")
  {
    hide *;
    var c, r := "{\"x\":2}", "{\"x\":1}";
    var text := "//{\"x\":2}\n{\"x\":1}";
    assert text == "//" + (c + ("\n" + r));
    PastTheLine(text, c, r, "x");
    PastTheLine(text, c, r, "k");
    TheCommentBeforeTheObject(text, r);
    TheCommentOpened("\"x\":2}\n{\"x\":1}");
    TheEntryInTheComment(text, r);
  }

  lemma PastTheLine(text: string, c: string, r: string, key: string)
    requires text == "//" + (c + ("\n" + r)) && '\n' !in c
    ensures Find(text, Code, Needle(key)) == Shift(|c| + 3, Find(r, Code, Needle(key)))
  {
    hide Find, Needle;
    assert text[2..] == c + ("\n" + r);
    FindStep(text, Code, Needle(key));
    ALineIsPassed(c, r, Needle(key));
  }

  lemma TheCommentBeforeTheObject(text: string, r: string)
    requires text == "//{\"x\":2}\n{\"x\":1}" && r == "{\"x\":1}"
    requires Find(text, Code, Needle("x")) == Shift(10, Find(r, Code, Needle("x")))
    ensures FindValue(text, "x") == Some("1")
  {
    hide Find, FindValue, ValueSpan;
    assert r == "{" + (Needle("x") + ":1}");
    FirstKey("x", ":1}");
    ADigitIsTheValue(text, "x", 15);
  }

  lemma TheCommentOpened(r: string)
    requires r == "\"x\":2}\n{\"x\":1}"
    ensures FindValue("//{" + "\n  \"k\": 0,\n" + r, "x") == Some("2")
  {
    hide Find, HeadMode, FindValue, ValueSpan;
    var text, e, f := "//{" + "\n  \"k\": 0,\n" + r, "\n  \"k\": 0,\n", "  \"k\": 0,\n";
    assert text == "//{" + (e + r) && e + r == "" + ("\n" + (f + r));
    TheLineOpens();
    HeadIsScannedAlike("//{", e + r, Code, Needle("x"));
    ALineIsPassed("", f + r, Needle("x"));
    TheEntryIsPassed(r);
    assert r == Needle("x") + ":2}\n{\"x\":1}";
    FoundAtOnce(Needle("x"), ":2}\n{\"x\":1}");
    ADigitIsTheValue(text, "x", 18);
  }

  lemma TheEntryIsPassed(r: string)
    ensures Find("  \"k\": 0,\n" + r, Code, Needle("x")) == Shift(10, Find(r, Code, Needle("x")))
  {
    hide Find;
    assert Render(Literal("0")) == "0";
    assert "  \"k\": 0,\n" + r == "  " + (Needle("k") + (": " + ("0" + (",\n" + r))));
    AnEntryIsPassed("  ", "k", ": ", Literal("0"), ",\n", r, "x");
  }

  lemma TheLineOpens()
    ensures HeadMode("//{", Code) == Some(Line)
  {
    assert "//{"[2..] == "{";
    assert "{"[1..] == "";
    assert HeadMode("{", Line) == Some(Line);
  }

  lemma TheEntryInTheComment(text: string, r: string)
    requires text == "//{\"x\":2}\n{\"x\":1}" && r == "{\"x\":1}"
    requires Find(text, Code, Needle("k")) == Shift(10, Find(r, Code, Needle("k")))
    ensures OpensOutsideComments(text)
    ensures Upsert(text, "k", "0") == Ok("//{" + "\n  \"k\": 0,\n" + "\"x\":2}\n{\"x\":1}")
  {
    hide Find, TrimLeft, TrimRight, HeadMode, SpanAt, Blanks;
    NotThere(r);
    TrimKeeps(text);
    IndexIs(text, '{', 2);
    TheLineOpens();
    assert text[..3] == "//{";
    var rest := text[3..];
    assert rest == "\"x\":2}\n{\"x\":1}";
    BlanksAre(rest, 0);
    assert Entry("k", "0", ",\n") == "\n  \"k\": 0,\n";
  }

  lemma NotThere(r: string)
    requires r == "{\"x\":1}"
    ensures Find(r, Code, Needle("k")) == None
  {
    hide Find;
    var needle := Needle("k");
    assert r == "{" + (Needle("x") + (":1}" + ""));
    PastACharacter('{', Needle("x") + (":1}" + ""), Code, needle);
    AKeyIsPassed("x", ":1}" + "", "k");
    QuietIsPassed(":1}", "", needle);
    FindNothing(needle);
  }

  lemma FindNothing(needle: string)
    ensures Find("", Code, needle) == None
  {
  }

  // ------------------------------------------------------------ a comment that is taken with a value

  lemma FirstKey(key: string, r: string)
    ensures Find("{" + (Needle(key) + r), Code, Needle(key)) == Some(1)
  {
    hide Find;
    PastACharacter('{', Needle(key) + r, Code, Needle(key));
    FoundAtOnce(Needle(key), r);
  }

  lemma StopsAt(s: string, n: nat)
    requires n < |s| && IsStop(s[n]) && forall i :: 0 <= i < n ==> !IsStop(s[i])
    ensures Plainly(s) == n
  {
  }

  /** A plain value's span runs over a comment on its line: the comment goes with it, or is cut in two. */
  lemma ATrailingCommentGoesWithTheValue()
    ensures Upsert("{\"k\":1 //c\n}", "k", "2") == Ok("{\"k\":2\n}")
    ensures Upsert("{\"k\":1 /*a,b*/\n}", "k", "2") == Ok("{\"k\":2,b*/\n}")
  {
    hide *;
    TheSpanWithTheComment("{\"k\":1 //c\n}", "1 //c\n}");
    TheSpanWithTheComment("{\"k\":1 /*a,b*/\n}", "1 /*a,b*/\n}");
    Replaced("{\"k\":1 //c\n}", "{\"k\":2\n}");
    Replaced("{\"k\":1 /*a,b*/\n}", "{\"k\":2,b*/\n}");
  }

  lemma TheSpanWithTheComment(text: string, v: string)
    requires text == "{\"k\":" + v && (v == "1 //c\n}" || v == "1 /*a,b*/\n}")
    ensures ValueSpan(text, "k") == Some((5, 10))
  {
    hide *;
    assert ValueLength(v) == Some(5) && !IsBlank(v[0]) by { FiveCharacters(v); }
    assert text == "{" + (Needle("k") + (":" + v)) && |Needle("k")| == 3 by { BraceAndKey(text, v); }
    FirstKey("k", ":" + v);
    assert text[4..] == ":" + v && text[5..] == v;
    ToTheValue(v);
    SpanWhereFound(text, "k");
    SpanFrom(text, 1, Needle("k"));
  }

  lemma FiveCharacters(v: string)
    requires v == "1 //c\n}" || v == "1 /*a,b*/\n}"
    ensures ValueLength(v) == Some(5) && !IsBlank(v[0])
  {
    hide Plainly;
    StopsAt(v, 5);
  }

  lemma BraceAndKey(text: string, v: string)
    requires text == "{\"k\":" + v
    ensures text == "{" + (Needle("k") + (":" + v)) && |Needle("k")| == 3
  {
  }

  lemma SpanFrom(text: string, i: nat, needle: string)
    requires i + |needle| + 1 < |text| && ToValue(text[i + |needle|..]) == Some(1)
    requires ValueLength(text[i + |needle| + 1..]) == Some(5)
    ensures SpanAt(text, i, needle) == Some((i + |needle| + 1, i + |needle| + 6))
  {
    hide ToValue, ValueLength;
  }

  lemma ToTheValue(v: string)
    requires v != "" && !IsBlank(v[0])
    ensures ToValue(":" + v) == Some(1)
  {
    hide Blanks;
    var u := ":" + v;
    assert u[1..] == v;
    BlanksAre(u, 0);
    BlanksAre(v, 0);
  }

  lemma Replaced(text: string, edited: string)
    requires ValueSpan(text, "k") == Some((5, 10)) && edited == text[..5] + "2" + text[10..]
    ensures Upsert(text, "k", "2") == Ok(edited)
  {
    hide ValueSpan;
  }

  // ------------------------------------------------------------ a string or an inner key that is found first

  function OpenedBy(c: char, m: Mode, open: string): string {
    Opened([c], m, open)
  }

  /** A string or another object's character is passed over on the way to the setting. */
  lemma OnTheWay(text: string, i: nat, m: Mode, open: string, needle: string)
    requires i < |text| && text[i] != '/' && text[i] != '\\' && (m == Code || m == Quote)
    requires m == Code && text[i] == '"' ==> open != "{" || !IsKey(text[i..], needle)
    ensures var c := text[i];
            c != '[' && c != ']' ==>
              Setting(text[i..], m, open, needle)
              == Shift(1, Setting(text[i + 1..], if (c == '"') == (m == Code) then Quote else Code, OpenedBy(c, m, open), needle))
  {
    hide Setting, IsKey;
    var s := text[i..];
    assert s[0] == text[i] && s[1..] == text[i + 1..];
    SettingStep(s, m, open, needle);
  }

  lemma TheSettingsKey(text: string, i: nat, needle: string)
    requires i < |text| && text[i] == '"' && IsKey(text[i..], needle)
    ensures Setting(text[i..], Code, "{", needle) == Some(0)
  {
    hide Setting, ValueAfter;
    SettingStep(text[i..], Code, "{", needle);
  }

  lemma NothingToPass(s: string)
    requires s != "" && !IsBlank(s[0]) && s[0] != '/'
    ensures Passed(s, Code) == 0
  {
  }

  /** A colon and a digit make a key. */
  lemma ADigitMakesAKey(s: string, needle: string, r: string)
    requires s == needle + (":" + r) && r != "" && '0' <= r[0] <= '9'
    ensures IsKey(s, needle) && ValueAfter(s[|needle|..]) == Some(1)
  {
    hide Passed;
    var u := ":" + r;
    assert s[|needle|..] == u && u[1..] == r;
    NothingToPass(u);
    NothingToPass(r);
  }

  lemma Unfound(text: string, key: string)
    requires Find(text, Code, Needle(key)).Some?
    requires ToValue(text[Find(text, Code, Needle(key)).value + |Needle(key)|..]) == None
    ensures ValueSpan(text, key) == None && StartOf(text, key) == None
  {
    hide Find, Needle, ToValue;
  }

  /** A string that is the key, standing before it, hides it: the edit adds the key a second time. */
  lemma AStringHidesItsKey()
    ensures var text := "{\"a\":\"x\",\"x\":1}";
            && TrueSpan(text, "x") == Some((13, 14)) && ValueSpan(text, "x") == None
            && Upsert(text, "x", "2") == Ok("{\n  \"x\": 2,\n\"a\":\"x\",\"x\":1}")
  {
    hide *;
    var text := "{\"a\":\"x\",\"x\":1}";
    TheStringIsFound(text);
    TheKeyBehindTheString(text);
    TheKeyIsAddedAgain(text);
  }

  lemma TheStringIsFound(text: string)
    requires text == "{\"a\":\"x\",\"x\":1}"
    ensures ValueSpan(text, "x") == None
  {
    hide *;
    var r := ",\"x\":1}";
    StringText(text);
    PastAKeyAndColon(text, r);
    assert ToValue(r) == None by { NoColon(r); }
    Unfound(text, "x");
  }

  lemma StringText(text: string)
    requires text == "{\"a\":\"x\",\"x\":1}"
    ensures text == "{" + (Needle("a") + (":" + (Needle("x") + ",\"x\":1}"))) && text[8..] == ",\"x\":1}"
    ensures |Needle("x")| == 3
  {
  }

  lemma PastAKeyAndColon(text: string, r: string)
    requires text == "{" + (Needle("a") + (":" + (Needle("x") + r)))
    ensures Find(text, Code, Needle("x")) == Some(5)
  {
    hide Find;
    PastACharacter('{', Needle("a") + (":" + (Needle("x") + r)), Code, Needle("x"));
    AKeyIsPassed("a", ":" + (Needle("x") + r), "x");
    PastACharacter(':', Needle("x") + r, Code, Needle("x"));
    FoundAtOnce(Needle("x"), r);
  }

  lemma NoColon(r: string)
    requires r != "" && r[0] == ','
    ensures ToValue(r) == None
  {
    hide Blanks;
    BlanksAre(r, 0);
  }

  lemma TheKeyBehindTheString(text: string)
    requires text == "{\"a\":\"x\",\"x\":1}"
    ensures TrueSpan(text, "x") == Some((13, 14))
  {
    hide *;
    Characters(text);
    Tails(text);
    TheStringIsNoKey(text[5..], Needle("x"));
    ADigitMakesAKey(text[9..], Needle("x"), "1}");
    NotTheNeedle(text[1..], Needle("x"));
    WalkPastTheString(text, Needle("x"));
    TheDigitIsBare("1}");
    TrueSpanWhereSet(text, "x", 9);
  }

  lemma Characters(text: string)
    requires text == "{\"a\":\"x\",\"x\":1}"
    ensures |text| == 15 && text[0] == '{' && text[1] == '"' && text[2] == 'a' && text[3] == '"' && text[4] == ':'
    ensures text[5] == '"' && text[6] == 'x' && text[7] == '"' && text[8] == ',' && text[9] == '"'
    ensures |Needle("x")| == 3 && Needle("x")[1] == 'x'
  {
  }

  lemma Tails(text: string)
    requires text == "{\"a\":\"x\",\"x\":1}"
    ensures text[5..] == Needle("x") + ",\"x\":1}" && text[9..] == Needle("x") + (":" + "1}")
    ensures text[12..] == text[9..][3..] && text[13..] == "1}"
  {
  }

  lemma WalkPastTheString(text: string, needle: string)
    requires |text| == 15 && text[0] == '{' && text[1] == '"' && text[2] == 'a' && text[3] == '"' && text[4] == ':'
    requires text[5] == '"' && text[6] == 'x' && text[7] == '"' && text[8] == ',' && text[9] == '"'
    requires !IsKey(text[1..], needle) && !IsKey(text[5..], needle) && IsKey(text[9..], needle)
    ensures Setting(text, Code, "", needle) == Some(9)
  {
    hide Setting, IsKey;
    assert "" + ['{'] == "{" && "{" + ['{'] == "{{" && "{{"[..1] == "{";
    assert text[0..] == text;
    OnTheWay(text, 0, Code, "", needle);
    OnTheWay(text, 1, Code, "{", needle);
    OnTheWay(text, 2, Quote, "{", needle);
    OnTheWay(text, 3, Quote, "{", needle);
    OnTheWay(text, 4, Code, "{", needle);
    OnTheWay(text, 5, Code, "{", needle);
    OnTheWay(text, 6, Quote, "{", needle);
    OnTheWay(text, 7, Quote, "{", needle);
    OnTheWay(text, 8, Code, "{", needle);
    TheSettingsKey(text, 9, needle);
  }

  lemma TrueSpanWhereSet(text: string, key: string, i: nat)
    requires Setting(text, Code, "", Needle(key)) == Some(i) && i + |key| + 3 < |text|
    requires ValueAfter(text[i..][|Needle(key)|..]) == Some(1) && TrueLength(text[i + |key| + 3..]) == Some(1)
    ensures TrueSpan(text, key) == Some((i + |key| + 3, i + |key| + 4))
  {
    hide Setting, ValueAfter, TrueLength;
    var k := i + |Needle(key)|;
    assert text[k..] == text[i..][|Needle(key)|..];
  }

  lemma TheStringIsNoKey(s: string, needle: string)
    requires s == needle + ",\"x\":1}"
    ensures !IsKey(s, needle)
  {
    hide Passed;
    var u := s[|needle|..];
    assert u == ",\"x\":1}";
    NothingToPass(u);
  }

  lemma NotTheNeedle(s: string, needle: string)
    requires |s| >= 2 && |needle| >= 2 && s[1] != needle[1]
    ensures !IsKey(s, needle)
  {
    hide ValueAfter;
  }

  lemma TheDigitIsBare(s: string)
    requires |s| >= 2 && '0' <= s[0] <= '9' && s[1] == '}'
    ensures TrueLength(s) == Some(1)
  {
    assert Bare(s[1..]) == 0;
  }

  lemma TheKeyIsAddedAgain(text: string)
    requires text == "{\"a\":\"x\",\"x\":1}" && ValueSpan(text, "x") == None
    ensures Upsert(text, "x", "2") == Ok("{\n  \"x\": 2,\n\"a\":\"x\",\"x\":1}")
  {
    hide *;
    var rest := "\"a\":\"x\",\"x\":1}";
    assert text == "{" + rest;
    AddedInFront(text, "x", "2", rest);
    assert "{" + "\n  \"x\": 2,\n" + rest == "{\n  \"x\": 2,\n\"a\":\"x\",\"x\":1}";
    assert Entry("x", "2", ",\n") == "\n  \"x\": 2,\n" by { TheEntry(); }
  }

  lemma TheEntry()
    ensures Entry("x", "2", ",\n") == "\n  \"x\": 2,\n"
  {
  }

  lemma AddedInFront(text: string, key: string, value: string, rest: string)
    requires text == "{" + rest && rest != "" && rest[0] == '"' && rest[|rest| - 1] == '}' && ValueSpan(text, key) == None
    ensures Upsert(text, key, value) == Ok("{" + Entry(key, value, ",\n") + rest)
  {
    hide ValueSpan, Trim, Entry, Blanks;
    TrimKeeps(text);
    IndexIs(text, '{', 0);
    BlanksAre(rest, 0);
    assert text[..1] == "{" && text[1..] == rest;
  }

  /** A key of an inner object, standing before the setting's own, is read and edited in its place. */
  lemma AnInnerKeyIsTakenForTheSetting()
    ensures var text := "{\"a\":{\"x\":1},\"x\":2}";
            && TrueSpan(text, "x") == Some((17, 18)) && FindValue(text, "x") == Some("1")
            && Upsert(text, "x", "3") == Ok("{\"a\":{\"x\":3},\"x\":2}")
  {
    hide *;
    var text := "{\"a\":{\"x\":1},\"x\":2}";
    TheInnerKeyIsFound(text);
    TheKeyBehindTheInnerOne(text);
    TheInnerKeyIsEdited(text);
  }

  lemma TheInnerKeyIsFound(text: string)
    requires text == "{\"a\":{\"x\":1},\"x\":2}"
    ensures ValueSpan(text, "x") == Some((10, 11)) && FindValue(text, "x") == Some("1")
  {
    hide Find, ValueSpan, FindValue, Needle;
    var r := ":1},\"x\":2}";
    InnerText(text);
    PastAnOuterKey(text, r);
    ADigitIsTheValue(text, "x", 10);
  }

  lemma InnerText(text: string)
    requires text == "{\"a\":{\"x\":1},\"x\":2}"
    ensures text == "{" + (Needle("a") + (":" + ("{" + (Needle("x") + ":1},\"x\":2}"))))
  {
  }

  lemma PastAnOuterKey(text: string, r: string)
    requires text == "{" + (Needle("a") + (":" + ("{" + (Needle("x") + r))))
    ensures Find(text, Code, Needle("x")) == Some(6)
  {
    hide Find;
    PastACharacter('{', Needle("a") + (":" + ("{" + (Needle("x") + r))), Code, Needle("x"));
    AKeyIsPassed("a", ":" + ("{" + (Needle("x") + r)), "x");
    PastACharacter(':', "{" + (Needle("x") + r), Code, Needle("x"));
    FirstKey("x", r);
  }

  lemma TheInnerKeyIsEdited(text: string)
    requires text == "{\"a\":{\"x\":1},\"x\":2}" && ValueSpan(text, "x") == Some((10, 11))
    ensures Upsert(text, "x", "3") == Ok("{\"a\":{\"x\":3},\"x\":2}")
  {
    hide ValueSpan;
    assert text[..10] + "3" + text[11..] == "{\"a\":{\"x\":3},\"x\":2}";
  }

  lemma TheKeyBehindTheInnerOne(text: string)
    requires text == "{\"a\":{\"x\":1},\"x\":2}"
    ensures TrueSpan(text, "x") == Some((17, 18))
  {
    hide *;
    InnerCharacters(text);
    InnerTails(text);
    ADigitMakesAKey(text[13..], Needle("x"), "2}");
    NotTheNeedle(text[1..], Needle("x"));
    WalkPastTheInnerKey(text, Needle("x"));
    TheDigitIsBare("2}");
    TrueSpanWhereSet(text, "x", 13);
  }

  lemma InnerCharacters(text: string)
    requires text == "{\"a\":{\"x\":1},\"x\":2}"
    ensures |text| == 19 && text[0] == '{' && text[1] == '"' && text[2] == 'a' && text[3] == '"' && text[4] == ':'
    ensures text[5] == '{' && text[6] == '"' && text[7] == 'x' && text[8] == '"' && text[9] == ':' && text[10] == '1'
    ensures text[11] == '}' && text[12] == ',' && text[13] == '"' && |Needle("x")| == 3 && Needle("x")[1] == 'x'
  {
  }

  lemma InnerTails(text: string)
    requires text == "{\"a\":{\"x\":1},\"x\":2}"
    ensures text[13..] == Needle("x") + (":" + "2}") && text[16..] == text[13..][3..] && text[17..] == "2}"
  {
  }

  lemma WalkPastTheInnerKey(text: string, needle: string)
    requires |text| == 19 && text[0] == '{' && text[1] == '"' && text[2] == 'a' && text[3] == '"' && text[4] == ':'
    requires text[5] == '{' && text[6] == '"' && text[7] == 'x' && text[8] == '"' && text[9] == ':' && text[10] == '1'
    requires text[11] == '}' && text[12] == ',' && text[13] == '"'
    requires !IsKey(text[1..], needle) && IsKey(text[13..], needle)
    ensures Setting(text, Code, "", needle) == Some(13)
  {
    hide Setting, IsKey;
    assert "" + ['{'] == "{" && "{" + ['{'] == "{{";
    assert text[0..] == text;
    OnTheWay(text, 0, Code, "", needle);
    OnTheWay(text, 1, Code, "{", needle);
    OnTheWay(text, 2, Quote, "{", needle);
    OnTheWay(text, 3, Quote, "{", needle);
    OnTheWay(text, 4, Code, "{", needle);
    OnTheWay(text, 5, Code, "{", needle);
    WalkOutOfTheInner(text, needle);
  }

  lemma WalkOutOfTheInner(text: string, needle: string)
    requires |text| == 19 && text[6] == '"' && text[7] == 'x' && text[8] == '"' && text[9] == ':' && text[10] == '1'
    requires text[11] == '}' && text[12] == ',' && text[13] == '"' && IsKey(text[13..], needle)
    ensures Setting(text[6..], Code, "{{", needle) == Some(7)
  {
    hide Setting, IsKey;
    assert "{{"[..1] == "{";
    OnTheWay(text, 6, Code, "{{", needle);
    OnTheWay(text, 7, Quote, "{{", needle);
    OnTheWay(text, 8, Quote, "{{", needle);
    OnTheWay(text, 9, Code, "{{", needle);
    OnTheWay(text, 10, Code, "{{", needle);
    OnTheWay(text, 11, Code, "{{", needle);
    OnTheWay(text, 12, Code, "{", needle);
    TheSettingsKey(text, 13, needle);
  }

  // ------------------------------------------------------------ an entry in front of the object

  function CommentedBrace(): string { "//{\n{\"x\":1}" }
  function InFront(): string { "//{\n  \"k\": 0,\n\n{\"x\":1}" }

  /**
    A first brace at the end of a line comment: the edit touches nothing else and the editor
    reads the key back, but the entry stands in front of the object and is no setting.
   */
  lemma AnEntryInFrontOfTheObject()
    ensures OpensOutsideComments(CommentedBrace()) && TakesCode("//{", "\n{\"x\":1}") && !OpensTheObject("//{")
    ensures Upsert(CommentedBrace(), "k", "0") == Ok(InFront())
    ensures FindValue(InFront(), "k") == Some("0") && TrueSpan(InFront(), "k") == None
  {
    hide *;
    TheBraceInTheComment();
    TheEntryInFront();
    ItIsReadBack();
    ItIsNoSetting();
  }

  lemma TheBraceInTheComment()
    ensures OpensOutsideComments(CommentedBrace()) && TakesCode("//{", "\n{\"x\":1}") && !OpensTheObject("//{")
  {
    hide IndexOf, HeadMode;
    var text := CommentedBrace();
    IndexIs(text, '{', 2);
    TheLineOpens();
    assert text[..3] == "//{";
    TheLineEndsInComment();
  }

  lemma TheLineEndsInComment()
    ensures EndMode("//{", Code) == Line && Opens("//{", Code, "") == ""
  {
    assert "//{"[2..] == "{" && "{"[1..] == "";
    assert EndMode("{", Line) == Line && Opens("{", Line, "") == "";
  }

  lemma TheEntryInFront()
    ensures Upsert(CommentedBrace(), "k", "0") == Ok(InFront())
  {
    hide *;
    var rest := "\n{\"x\":1}";
    assert CommentedBrace() == "//{" + rest && InFront() == "//{" + "\n  \"k\": 0,\n" + rest by { TheTexts(); }
    TheKeyIsAbsent("//{" + rest);
    assert Entry("k", "0", ",\n") == "\n  \"k\": 0,\n" by { TheZeroEntry(); }
    AddedInTheComment("//{" + rest, "k", "0", rest);
  }

  lemma TheTexts()
    ensures CommentedBrace() == "//{" + "\n{\"x\":1}"
    ensures InFront() == "//{" + "\n  \"k\": 0,\n" + "\n{\"x\":1}"
  {
  }

  lemma TheZeroEntry()
    ensures Entry("k", "0", ",\n") == "\n  \"k\": 0,\n"
  {
  }

  lemma TheKeyIsAbsent(text: string)
    requires text == "//{" + "\n{\"x\":1}"
    ensures ValueSpan(text, "k") == None
  {
    hide Find, SpanAt, Needle;
    var r := "{\"x\":1}";
    assert text == "//" + ("{" + ("\n" + r));
    PastTheLine(text, "{", r, "k");
    NotThere(r);
  }

  lemma AddedInTheComment(text: string, key: string, value: string, rest: string)
    requires text == "//{" + rest && |rest| >= 2 && rest[0] == '\n' && rest[1] == '{' && rest[|rest| - 1] == '}'
    requires ValueSpan(text, key) == None
    ensures Upsert(text, key, value) == Ok("//{" + Entry(key, value, ",\n") + rest)
  {
    hide ValueSpan, Trim, Entry, Blanks;
    assert Trim(text) != "" by { TrimKeeps(text); }
    IndexIs(text, '{', 2);
    BlanksAre(rest, 1);
    assert text[..3] == "//{" && text[3..] == rest;
  }

  lemma ItIsReadBack()
    ensures FindValue(InFront(), "k") == Some("0")
  {
    hide Find, Needle, InFront, Quiet, FindValue;
    var text, r := InFront(), "\"k\": 0,\n\n{\"x\":1}";
    assert text == "//" + ("{" + ("\n" + ("  " + r))) by { TheParts(); }
    PastTheLine(text, "{", "  " + r, "k");
    assert Quiet("  ") by { TwoSpaces(); }
    QuietIsPassed("  ", r, Needle("k"));
    assert r == Needle("k") + ": 0,\n\n{\"x\":1}" by { TheKey(); }
    assert Needle("k") != "" && Needle("k")[0] == '"' by { TheKey(); }
    FoundAtOnce(Needle("k"), ": 0,\n\n{\"x\":1}");
    TheZeroIsRead(text);
  }

  lemma TheParts()
    ensures InFront() == "//" + ("{" + ("\n" + ("  " + "\"k\": 0,\n\n{\"x\":1}")))
  {
  }

  lemma TwoSpaces()
    ensures Quiet("  ")
  {
  }

  lemma TheKey()
    ensures "\"k\": 0,\n\n{\"x\":1}" == Needle("k") + ": 0,\n\n{\"x\":1}" && Needle("k") != "" && Needle("k")[0] == '"'
  {
  }

  lemma TheZeroIsRead(text: string)
    requires text == InFront() && Find(text, Code, Needle("k")) == Some(6)
    ensures FindValue(text, "k") == Some("0")
  {
    hide Find, ToValue, Plainly;
    var u := text[9..];
    assert u == ": 0,\n\n{\"x\":1}";
    assert ToValue(u) == Some(2) by { TheZeroFollows(u); }
    var z := text[11..];
    assert z == "0,\n\n{\"x\":1}";
    StopsAt(z, 1);
    assert text[11..12] == "0";
  }

  lemma TheZeroFollows(u: string)
    requires u == ": 0,\n\n{\"x\":1}"
    ensures ToValue(u) == Some(2)
  {
    hide Blanks;
    BlanksAre(u, 0);
    BlanksAre(u[1..], 1);
  }

  lemma ItIsNoSetting()
    ensures TrueSpan(InFront(), "k") == None
  {
    hide Setting, Opens, EndMode, Head, InFront, Needle, IsKey, TrueSpan;
    var w := "\"k\": 0,\n\n{\"x\":1}";
    var text := InFront();
    assert text == "//{" + ("\n" + (" " + (" " + w))) by { TheIndent(); }
    assert Head("//{") by { TheBraceIsLast(); }
    TheLineEndsInComment();
    PastTheHead("//{", "\n" + (" " + (" " + w)), Code, "", Needle("k"));
    PastTheIndent(w, Line, "", Needle("k"));
    TheCharacters(w);
    NotTheNeedle(w[10..], Needle("k"));
    NothingIsSetThere(w, Needle("k"));
    NoSettingNoSpan(text, "k");
  }

  lemma TheIndent()
    ensures InFront() == "//{" + ("\n" + (" " + (" " + "\"k\": 0,\n\n{\"x\":1}")))
  {
  }

  lemma TheBraceIsLast()
    ensures Head("//{")
  {
  }

  lemma TheCharacters(w: string)
    requires w == "\"k\": 0,\n\n{\"x\":1}"
    ensures |w| == 16 && w[0] == '"' && w[1] == 'k' && w[2] == '"' && w[3] == ':' && w[4] == ' ' && w[5] == '0' && w[6] == ','
    ensures w[7] == '\n' && w[8] == '\n' && w[9] == '{' && w[10] == '"' && w[11] == 'x' && w[12] == '"' && w[13] == ':'
    ensures w[14] == '1' && w[15] == '}' && |Needle("k")| == 3 && Needle("k")[1] == 'k'
  {
  }

  lemma NothingIsSetThere(w: string, needle: string)
    requires |w| == 16 && w[0] == '"' && w[1] == 'k' && w[2] == '"' && w[3] == ':' && w[4] == ' ' && w[5] == '0' && w[6] == ','
    requires w[7] == '\n' && w[8] == '\n' && w[9] == '{' && w[10] == '"' && w[11] == 'x' && w[12] == '"' && w[13] == ':'
    requires w[14] == '1' && w[15] == '}' && !IsKey(w[10..], needle)
    ensures Setting(w, Code, "", needle) == None
  {
    hide Setting, IsKey;
    assert w[0..] == w;
    OnTheWay(w, 0, Code, "", needle);
    OnTheWay(w, 1, Quote, "", needle);
    OnTheWay(w, 2, Quote, "", needle);
    OnTheWay(w, 3, Code, "", needle);
    OnTheWay(w, 4, Code, "", needle);
    OnTheWay(w, 5, Code, "", needle);
    OnTheWay(w, 6, Code, "", needle);
    OnTheWay(w, 7, Code, "", needle);
    OnTheWay(w, 8, Code, "", needle);
    TheObjectHasNone(w, needle);
  }

  lemma TheObjectHasNone(w: string, needle: string)
    requires |w| == 16 && w[9] == '{' && w[10] == '"' && w[11] == 'x' && w[12] == '"' && w[13] == ':'
    requires w[14] == '1' && w[15] == '}' && !IsKey(w[10..], needle)
    ensures Setting(w[9..], Code, "", needle) == None
  {
    hide Setting, IsKey;
    assert "" + ['{'] == "{" && "{"[..0] == "" && w[16..] == "";
    OnTheWay(w, 9, Code, "", needle);
    OnTheWay(w, 10, Code, "{", needle);
    OnTheWay(w, 11, Quote, "{", needle);
    OnTheWay(w, 12, Quote, "{", needle);
    OnTheWay(w, 13, Code, "{", needle);
    OnTheWay(w, 14, Code, "{", needle);
    OnTheWay(w, 15, Code, "{", needle);
    SettingStep("", Code, "", needle);
  }

  lemma NoSettingNoSpan(text: string, key: string)
    requires Setting(text, Code, "", Needle(key)) == None
    ensures TrueSpan(text, key) == None
  {
    hide Setting;
  }

  // ------------------------------------------------------------ an inner key that is taken out

  /** The key of an inner object is taken out in the setting's place, which is left as it was. */
  lemma AnInnerKeyIsTakenOutForTheSetting()
    ensures var text := "{\"a\":{\"x\":1},\"x\":2}";
            && WithoutKey(text, "x") == Some("{\"a\":{},\"x\":2}")
            && TrueText("{\"a\":{},\"x\":2}", "x") == TrueText(text, "x") == Some("2")
  {
    hide *;
    var text := "{\"a\":{\"x\":1},\"x\":2}";
    TheInnerKeyIsFound(text);
    TheInnerKeyIsAt(text);
    WhatGoes(text);
    BeforeTheInnerKey();
    ADigitIsAnItem();
    AnInnerKeyLeavesTheSetting(text, "x", Literal("1"));
    TheSettingReadsTwo(text);
    TakenOut(text, "x");
  }

  lemma TheInnerKeyIsAt(text: string)
    requires text == "{\"a\":{\"x\":1},\"x\":2}"
    ensures Find(text, Code, Needle("x")) == Some(6)
  {
    hide Find, Needle;
    InnerText(text);
    PastAnOuterKey(text, ":1},\"x\":2}");
  }

  lemma WhatGoes(text: string)
    requires text == "{\"a\":{\"x\":1},\"x\":2}"
    requires Find(text, Code, Needle("x")) == Some(6) && ValueSpan(text, "x") == Some((10, 11))
    ensures Removed(text, "x") == (6, 11) && text[..6] == "{\"a\":{" && text[11..] == "},\"x\":2}"
    ensures text[..6] + text[11..] == "{\"a\":{},\"x\":2}"
    ensures !Meets(text[..6], text[11..], Code) && NotColon(text[11..])
  {
    hide *;
    var p, r := text[..6], text[11..];
    assert p == "{\"a\":{" && r == "},\"x\":2}";
    assert p + r == "{\"a\":{},\"x\":2}";
    TheCutIs(text);
    AColonDoesNotFollow(p, r);
  }

  lemma TheCutIs(text: string)
    requires |text| > 11 && text[5] == '{' && text[11] == '}'
    requires Find(text, Code, Needle("x")) == Some(6) && ValueSpan(text, "x") == Some((10, 11))
    ensures Removed(text, "x") == (6, 11)
  {
    hide Find, ValueSpan, Needle, Trail;
    assert text[..6][5] == '{';
    NothingTrails(text[11..]);
  }

  lemma AColonDoesNotFollow(p: string, r: string)
    requires p != "" && p[|p| - 1] != '/' && r != "" && r[0] == '}'
    ensures !Meets(p, r, Code) && NotColon(r)
  {
    hide Classes, Passed;
    NothingToPass(r);
  }

  lemma NothingTrails(r: string)
    requires r != "" && r[0] == '}'
    ensures Trail(r) == 0
  {
    assert r[0..] == r;
  }

  lemma BeforeTheInnerKey()
    ensures Opens("{\"a\":{", Code, "") == "{{"
  {
    hide Opens;
    OpensOn('{', "\"a\":{", Code, "");
    OpensOn('"', "a\":{", Code, "{");
    OpensOn('a', "\":{", Quote, "{");
    OpensOn('"', ":{", Quote, "{");
    OpensOn(':', "{", Code, "{");
    OpensOn('{', "", Code, "{");
    OpensNothing("{{");
    assert "{\"a\":{" == ['{'] + "\"a\":{" && "\"a\":{" == ['"'] + "a\":{" && "a\":{" == ['a'] + "\":{";
    assert "\":{" == ['"'] + ":{" && ":{" == [':'] + "{" && "{" == ['{'] + "" && "" + ['{'] == "{" && "{" + ['{'] == "{{";
  }

  lemma OpensOn(c: char, t: string, m: Mode, open: string)
    requires c != '/' && c != '\\' && c != ']' && c != '}' && (m == Code || m == Quote)
    ensures Opens([c] + t, m, open)
            == Opens(t, if (c == '"') == (m == Code) then Quote else Code, if m == Code && (c == '{' || c == '[') then open + [c] else open)
  {
    assert ([c] + t)[1..] == t;
  }

  lemma OpensNothing(open: string)
    ensures Opens("", Code, open) == open
  {
  }

  lemma ADigitIsAnItem()
    ensures Valid(Literal("1")) && Render(Literal("1")) == "1" && PlainKey("x") && "{{" != "" && "{{" != "{"
  {
    assert |"{{"| != |"{"|;
  }

  lemma TheSettingReadsTwo(text: string)
    requires text == "{\"a\":{\"x\":1},\"x\":2}"
    ensures TrueText(text, "x") == Some("2")
  {
    hide *;
    TheKeyBehindTheInnerOne(text);
    TrueTextIsTheSpans(text, "x");
    assert text[17..18] == "2" by { ADigitThere(text); }
  }

  lemma ADigitThere(text: string)
    requires text == "{\"a\":{\"x\":1},\"x\":2}"
    ensures text[17..18] == "2"
  {
  }
}
