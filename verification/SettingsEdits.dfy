/** What editing one setting promises: it reads back, it can be undone, it disturbs nothing else. */
module SettingsEdits {
  import opened Strings
  import opened Wrappers
  import opened Settings

  /** A value that starts like a string, array or object and ends exactly where the editor would end it. */
  predicate WellFormed(v: string) {
    v != "" && Delimited(v[0]) && ValueLength(v) == Some(|v|)
  }

  // ------------------------------------------------------------ locality

  /** A needle found within a common prefix is found at the same place. */
  lemma {:induction false} FoundAgain(s: string, s': string, m: Mode, needle: string, n: nat)
    requires |needle| >= 2 && Find(s, m, needle).Some? && Find(s, m, needle).value + |needle| <= n
    requires n <= |s| && n <= |s'| && s[..n] == s'[..n]
    ensures Find(s', m, needle) == Find(s, m, needle)
    decreases |s|
  {
    hide Find, Step, Hit;
    FindStep(s, m, needle);
    FindStep(s', m, needle);
    SameStart(s, s', m, needle, n);
    if !Hit(s, m, needle) {
      var (m', k) := Step(s, m);
      assert s[k..][..n - k] == s[..n][k..] && s'[k..][..n - k] == s'[..n][k..];
      FoundAgain(s[k..], s'[k..], m', needle, n - k);
    }
  }

  lemma SameStart(s: string, s': string, m: Mode, needle: string, n: nat)
    requires 2 <= |needle| <= n && n <= |s| && n <= |s'| && s[..n] == s'[..n]
    ensures Step(s, m) == Step(s', m) && (Hit(s, m, needle) <==> Hit(s', m, needle))
  {
    assert s[0] == s[..n][0] && s[1] == s[..n][1] && s'[0] == s'[..n][0] && s'[1] == s'[..n][1];
    assert s[..|needle|] == s[..n][..|needle|] && s'[..|needle|] == s'[..n][..|needle|];
    assert needle <= s <==> needle <= s';
  }

  lemma BlanksAre(s: string, n: nat)
    requires n <= |s| && (forall i :: 0 <= i < n ==> IsBlank(s[i])) && (n < |s| ==> !IsBlank(s[n]))
    ensures Blanks(s) == n
  {
  }

  lemma ToValueAgain(u: string, u': string, a: nat)
    requires ToValue(u) == Some(a) && a < |u'| && u[..a] == u'[..a] && !IsBlank(u'[a])
    ensures ToValue(u') == Some(a)
  {
    hide Blanks;
    var j := Blanks(u);
    assert j < a && forall i :: 0 <= i < a ==> u[i] == u[..a][i] && u'[i] == u'[..a][i];
    BlanksAre(u', j);
    var w, w' := u[j + 1..], u'[j + 1..];
    assert Blanks(w) == a - j - 1;
    assert forall i :: 0 <= i < a - j - 1 ==> w'[i] == w[i];
    BlanksAre(w', a - j - 1);
  }

  lemma {:induction false} ToQuoteStays(s: string, r: string)
    ensures ToQuote(s).Some? ==> ToQuote(s + r) == ToQuote(s)
    decreases |s|
  {
    if s == "" || (s[0] == '\\' && |s| == 1) {
    } else {
      var k := if s[0] == '\\' then 2 else 1;
      assert (s + r)[k..] == s[k..] + r;
      ToQuoteStays(s[k..], r);
    }
  }

  lemma {:induction false} ToClosingStays(s: string, r: string, open: char, close: char, depth: int, q: bool)
    ensures ToClosing(s, open, close, depth, q).Some? ==> ToClosing(s + r, open, close, depth, q) == ToClosing(s, open, close, depth, q)
    decreases |s|
  {
    if s == "" || (q && s[0] == '\\' && |s| == 1) {
    } else {
      var k := if q && s[0] == '\\' then 2 else 1;
      assert (s + r)[k..] == s[k..] + r && (s + r)[0] == s[0];
      var q' := if q then s[0] == '\\' || s[0] != '"' else s[0] == '"';
      var depth' := if q || s[0] == '"' then depth else if s[0] == open then depth + 1 else if s[0] == close then depth - 1 else depth;
      ToClosingStays(s[k..], r, open, close, depth', q');
    }
  }

  /** What follows a well-formed value does not change where it ends. */
  lemma LengthStays(v: string, r: string)
    requires WellFormed(v)
    ensures ValueLength(v + r) == Some(|v|)
  {
    if v[0] == '"' {
      assert (v + r)[1..] == v[1..] + r;
      ToQuoteStays(v[1..], r);
    } else {
      ToClosingStays(v, r, v[0], Closer(v[0]), 0, false);
    }
  }

  // ------------------------------------------------------------ a key that is there

  lemma NotBlank(v: string)
    requires WellFormed(v)
    ensures !IsBlank(v[0])
  {
  }

  /** Replacing a value leaves the key where it was, with the new value. */
  lemma ReplacedSpan(text: string, key: string, value: string)
    requires ValueSpan(text, key).Some? && WellFormed(value)
    ensures var (start, end) := ValueSpan(text, key).value;
            ValueSpan(text[..start] + value + text[end..], key) == Some((start, start + |value|))
  {
    hide Find, ToValue, ValueLength, Blanks, IsBlank;
    var needle := Needle(key);
    var (start, end) := ValueSpan(text, key).value;
    var h := Find(text, Code, needle).value;
    var text' := text[..start] + value + text[end..];
    assert text'[..start] == text[..start];
    FoundAgain(text, text', Code, needle, start);
    var k := h + |needle|;
    var u, u' := text[k..], text'[k..];
    var a := start - k;
    assert u[..a] == text[..start][k..] && u'[..a] == text'[..start][k..];
    assert u'[a] == value[0] && !IsBlank(value[0]) by { NotBlank(value); }
    ToValueAgain(u, u', a);
    assert text'[start..] == value + text[end..];
    LengthStays(value, text[end..]);
  }

  // ------------------------------------------------------------ a key that is added

  /** The mode a scan is in after p, if it opened no string on the way. */
  function HeadMode(p: string, m: Mode): (r: Option<Mode>)
    ensures r.Some? ==> r.value != Quote
    decreases |p|
  {
    if m == Quote || (m == Code && p != "" && p[0] == '"') then None
    else if p == "" then Some(m)
    else
      var (m', n) := Step(p, m);
      HeadMode(p[n..], m')
  }

  predicate EndsInBrace(p: string) {
    p != "" && p[|p| - 1] == '{'
  }

  lemma HeadOfNothing(m: Mode)
    ensures HeadMode("", m) == if m == Quote then None else Some(m)
  {
  }

  lemma HeadSteps(p: string, r: string, m: Mode)
    requires EndsInBrace(p) && HeadMode(p, m).Some?
    ensures var (m', n) := Step(p, m);
            && Step(p + r, m) == Step(p, m) && (p[n..] == "" || EndsInBrace(p[n..]))
            && HeadMode(p[n..], m') == HeadMode(p, m) && !(m == Code && (p + r)[0] == '"')
  {
    var n := Step(p, m).1;
    assert p[n..] == "" || p[n..][|p| - n - 1] == '{';
  }

  /** A head that ends in a brace is scanned alike whatever follows, and nothing is found in it. */
  lemma {:induction false} HeadIsScannedAlike(p: string, r: string, m: Mode, needle: string)
    requires p == "" || EndsInBrace(p)
    requires HeadMode(p, m).Some?
    ensures Find(p + r, m, needle) == Shift(|p|, Find(r, HeadMode(p, m).value, needle))
    decreases |p|
  {
    hide Find, Step, HeadMode, EndsInBrace;
    if p == "" {
      assert p + r == r;
      HeadOfNothing(m);
    } else {
      HeadSteps(p, r, m);
      FindStep(p + r, m, needle);
      var (m', n) := Step(p, m);
      assert (p + r)[n..] == p[n..] + r;
      HeadIsScannedAlike(p[n..], r, m', needle);
    }
  }

  /** What follows the entry's indent. */
  function FromKey(key: string, value: string, separator: string, r: string): string {
    Needle(key) + (": " + (value + (separator + r)))
  }

  lemma EntryFromKey(key: string, value: string, separator: string, r: string)
    ensures Entry(key, value, separator) + r == "\n" + (" " + (" " + FromKey(key, value, separator, r)))
  {
    var needle := Needle(key);
    assert "\n  " == "\n" + (" " + " ");
    assert Entry(key, value, separator) + r == "\n  " + needle + ": " + value + separator + r;
  }

  lemma PastABlank(c: string, u: string, m: Mode, needle: string)
    requires c == "\n" || (c == " " && m == Code)
    requires m == Code || m == Line
    ensures Find(c + u, m, needle) == Shift(1, Find(u, Code, needle))
  {
    hide Find;
    assert (c + u)[1..] == u;
    FindStep(c + u, m, needle);
  }

  /** From code, or from the end of a line comment, the entry's key is the next thing found. */
  lemma EntryIsFound(m: Mode, key: string, value: string, separator: string, r: string)
    requires m == Code || m == Line
    ensures Find(Entry(key, value, separator) + r, m, Needle(key)) == Some(3)
  {
    hide Find, Entry, FromKey;
    var needle := Needle(key);
    var u := FromKey(key, value, separator, r);
    EntryFromKey(key, value, separator, r);
    PastABlank("\n", " " + (" " + u), m, needle);
    PastABlank(" ", " " + u, Code, needle);
    PastABlank(" ", u, Code, needle);
    KeyIsHit(key, value, separator, r);
  }

  lemma KeyIsHit(key: string, value: string, separator: string, r: string)
    ensures Find(FromKey(key, value, separator, r), Code, Needle(key)) == Some(0)
  {
    hide Find;
    FindStep(FromKey(key, value, separator, r), Code, Needle(key));
  }

  /** From after the key, the value is read. */
  lemma ValueIsRead(value: string, r: string)
    requires WellFormed(value)
    ensures ToValue(": " + (value + r)) == Some(2)
    ensures ValueLength(value + r) == Some(|value|)
  {
    var s := ": " + (value + r);
    NotBlank(value);
    LengthStays(value, r);
    hide Blanks;
    BlanksAre(s, 0);
    assert s[1..] == " " + (value + r);
    BlanksAre(s[1..], 1);
  }

  /** An added entry is read back where it was put. */
  lemma InsertedSpan(p: string, r: string, key: string, value: string, separator: string)
    requires EndsInBrace(p) && (HeadMode(p, Code) == Some(Code) || HeadMode(p, Code) == Some(Line))
    requires WellFormed(value)
    ensures var start := |p| + 5 + |Needle(key)|;
            ValueSpan(p + Entry(key, value, separator) + r, key) == Some((start, start + |value|))
  {
    hide *;
    var text := p + Entry(key, value, separator) + r;
    InsertedKeyIsFound(p, r, key, value, separator);
    EntryEnds(p, r, key, value, separator);
    SpanOfEntry(text, |p| + 3, Needle(key), value, separator + r);
    SpanWhereFound(text, key);
  }

  lemma SpanWhereFound(text: string, key: string)
    ensures var i := Find(text, Code, Needle(key));
            ValueSpan(text, key) == if i.None? then None else SpanAt(text, i.value, Needle(key))
  {
    hide Find, SpanAt, Needle;
  }

  lemma InsertedKeyIsFound(p: string, r: string, key: string, value: string, separator: string)
    requires EndsInBrace(p) && (HeadMode(p, Code) == Some(Code) || HeadMode(p, Code) == Some(Line))
    ensures Find(p + Entry(key, value, separator) + r, Code, Needle(key)) == Some(|p| + 3)
  {
    hide Find, HeadMode, Entry, Needle, EndsInBrace;
    var e := Entry(key, value, separator);
    assert p + e + r == p + (e + r);
    HeadIsScannedAlike(p, e + r, Code, Needle(key));
    EntryIsFound(HeadMode(p, Code).value, key, value, separator, r);
  }

  lemma SpanOfEntry(text: string, i: nat, needle: string, value: string, r: string)
    requires WellFormed(value) && i + |needle| + 2 <= |text|
    requires text[i + |needle|..] == ": " + (value + r) && text[i + |needle| + 2..] == value + r
    ensures SpanAt(text, i, needle) == Some((i + |needle| + 2, i + |needle| + 2 + |value|))
  {
    hide ToValue, ValueLength, WellFormed;
    ValueIsRead(value, r);
  }

  lemma EntryEnds(p: string, r: string, key: string, value: string, separator: string)
    ensures var text := p + Entry(key, value, separator) + r;
            var k := |p| + 3 + |Needle(key)|;
            && k + 2 + |value| <= |text|
            && text[k..] == ": " + (value + (separator + r)) && text[k + 2..] == value + (separator + r)
  {
    var text := p + Entry(key, value, separator) + r;
    EntryFromKey(key, value, separator, r);
    var u := FromKey(key, value, separator, r);
    assert text == p + (Entry(key, value, separator) + r);
    assert text == (p + "\n  ") + u;
    var w := ": " + (value + (separator + r));
    assert u == Needle(key) + w;
    assert w[2..] == value + (separator + r);
    var k := |p| + 3 + |Needle(key)|;
    assert text[k..] == w;
    assert text[k + 2..] == w[2..];
  }

  /** The first brace is reached without opening a string, and not inside a block comment. */
  predicate OpensOutsideComments(text: string) {
    var open := IndexOf(text, '{');
    open.Some? &&
    var m := HeadMode(text[..open.value + 1], Code);
    m == Some(Code) || m == Some(Line)
  }

  /**
    An edit reads back: a present key's value is replaced, an absent one's entry is added
    to an empty file or after a first brace that opens the object, and doing it again
    changes nothing.
   */
  lemma AnEditReadsBack(text: string, key: string, value: string)
    requires WellFormed(value)
    requires ValueSpan(text, key).Some? || Trim(text) == "" || OpensOutsideComments(text)
    ensures var edited := Upsert(text, key, value);
            && edited.Ok? && FindValue(edited.value, key) == Some(value)
            && Upsert(edited.value, key, value) == edited
  {
    hide ValueSpan, Trim, HeadMode, Entry, WellFormed, FindValue;
    if ValueSpan(text, key).Some? {
      AReplacedValueReadsBack(text, key, value);
    } else if Trim(text) == "" {
      ABraceOpens();
      AnAddedEntryReadsBack("{", "}\n", key, value, "\n");
    } else {
      var o := IndexOf(text, '{').value + 1;
      AnAddedEntryReadsBack(text[..o], text[o..], key, value, Separator(text[o..]));
    }
    EditingAgain(Upsert(text, key, value).value, key, value);
  }

  lemma AReplacedValueReadsBack(text: string, key: string, value: string)
    requires ValueSpan(text, key).Some? && WellFormed(value)
    ensures var (start, end) := ValueSpan(text, key).value;
            FindValue(text[..start] + value + text[end..], key) == Some(value)
  {
    hide ValueSpan, WellFormed;
    ReplacedSpan(text, key, value);
    var (start, end) := ValueSpan(text, key).value;
    assert (text[..start] + value + text[end..])[start..start + |value|] == value;
  }

  lemma AnAddedEntryReadsBack(p: string, r: string, key: string, value: string, separator: string)
    requires EndsInBrace(p) && (HeadMode(p, Code) == Some(Code) || HeadMode(p, Code) == Some(Line))
    requires WellFormed(value)
    ensures FindValue(p + Entry(key, value, separator) + r, key) == Some(value)
  {
    hide ValueSpan, WellFormed, HeadMode, Entry;
    InsertedSpan(p, r, key, value, separator);
    EntryEnds(p, r, key, value, separator);
    var text := p + Entry(key, value, separator) + r;
    var start := |p| + 5 + |Needle(key)|;
    assert text[start..][..|value|] == value;
    assert text[start..start + |value|] == text[start..][..|value|];
  }

  lemma ABraceOpens()
    ensures HeadMode("{", Code) == Some(Code)
  {
  }

  lemma EditingAgain(text: string, key: string, value: string)
    requires FindValue(text, key) == Some(value)
    ensures Upsert(text, key, value) == Ok(text)
  {
    hide ValueSpan;
    var (start, end) := ValueSpan(text, key).value;
    assert text[..start] + text[start..end] + text[end..] == text;
  }

  // ------------------------------------------------------------ undoing it

  /** Taking an added entry out again leaves the text with one more line end after the brace. */
  lemma InsertedIsTakenOut(p: string, r: string, key: string, value: string, separator: string)
    requires EndsInBrace(p) && (HeadMode(p, Code) == Some(Code) || HeadMode(p, Code) == Some(Line))
    requires WellFormed(value) && (separator == "\n" || separator == ",\n")
    ensures WithoutKey(p + Entry(key, value, separator) + r, key) == Some(p + "\n" + r)
  {
    hide ValueSpan, HeadMode, WellFormed, EndsInBrace, Backed, Trail, LastIndex, Entry;
    var text := p + Entry(key, value, separator) + r;
    var start := |p| + 5 + |Needle(key)|;
    InsertedSpan(p, r, key, value, separator);
    BeforeTheValue(p, r, key, value, separator);
    TheLastKeyIsTheEntrys(p, key);
    BackedTo(p);
    AfterTheValue(p, r, key, value, separator);
    TrailOf(separator, r);
  }

  lemma BeforeTheValue(p: string, r: string, key: string, value: string, separator: string)
    ensures var text := p + Entry(key, value, separator) + r;
            && |p| + 5 + |Needle(key)| <= |text|
            && text[..|p| + 5 + |Needle(key)|] == p + "\n  " + Needle(key) + ": "
            && text[..|p| + 3] == p + "\n  " && text[..|p| + 1] == p + "\n"
  {
    var before := p + "\n  " + Needle(key) + ": ";
    var text := p + Entry(key, value, separator) + r;
    assert text == before + (value + separator + r);
    assert before[..|p| + 3] == p + "\n  ";
  }

  lemma AfterTheValue(p: string, r: string, key: string, value: string, separator: string)
    ensures var text := p + Entry(key, value, separator) + r;
            var end := |p| + 5 + |Needle(key)| + |value|;
            && end + |separator| <= |text|
            && text[end..] == separator + r && text[end + |separator|..] == r
  {
    var before := p + "\n  " + Needle(key) + ": " + value;
    var text := p + Entry(key, value, separator) + r;
    assert text == before + (separator + r);
    assert text == (before + separator) + r;
  }

  lemma TheLastKeyIsTheEntrys(p: string, key: string)
    ensures LastIndex(p + "\n  " + Needle(key) + ": ", Needle(key)) == Some(|p| + 3)
  {
    var needle := Needle(key);
    var s := p + "\n  " + needle + ": ";
    var i := |p| + 3;
    assert s[i..] == needle + ": ";
    assert needle <= s[i..];
    forall j | i < j <= |s| ensures !(needle <= s[j..]) {
      if j + |needle| <= |s| {
        var last := j + |needle| - 1;
        assert s[j..][|needle| - 1] == s[last];
        assert s[last] == (needle + ": ")[last - i];
      }
    }
  }

  lemma BackedTo(p: string)
    ensures Backed(p + "\n  ") == |p| + 1
  {
    hide Backed;
    var s := p + "\n  ";
    var n := Backed(s);
    assert s[|p|] == '\n' && s[|p| + 1] == ' ' && s[|p| + 2] == ' ';
  }

  lemma TrailOf(separator: string, r: string)
    requires separator == "\n" || separator == ",\n"
    ensures Trail(separator + r) == |separator|
  {
    var s := separator + r;
    assert Spaces(s) == 0;
    if separator == "\n" {
      assert s[0..] == s;
    } else {
      assert s[0..] == s && s[1..] == "\n" + r;
      assert Spaces(s[1..]) == 0;
      assert s[1..][0..] == s[1..];
    }
  }

  /** Adding an absent key and taking it out gives back the text with exactly one line end after its brace. */
  lemma AnAddedKeyIsUndone(text: string, key: string, value: string)
    requires WellFormed(value) && ValueSpan(text, key).None?
    requires Trim(text) != "" && OpensOutsideComments(text)
    ensures var o := IndexOf(text, '{').value + 1;
            && Upsert(text, key, value).Ok?
            && WithoutKey(Upsert(text, key, value).value, key) == Some(text[..o] + "\n" + text[o..])
  {
    hide ValueSpan, HeadMode, Trim, ValueLength;
    var o := IndexOf(text, '{').value + 1;
    InsertedIsTakenOut(text[..o], text[o..], key, value, Separator(text[o..]));
  }

  /** A file of nothing but white space holds no key. */
  lemma {:induction false} NoQuoteNoKey(s: string, m: Mode, needle: string)
    requires '"' !in s
    ensures Find(s, m, needle) == None
    decreases |s|
  {
    if s != "" {
      var (m', n) := Step(s, m);
      NoQuoteNoKey(s[n..], m', needle);
    }
  }

  lemma {:induction false} TrimmedToNothing(s: string)
    requires TrimRight(s) == ""
    ensures forall i :: 0 <= i < |s| ==> IsSpace(s[i])
    decreases |s|
  {
    if s != "" {
      TrimmedToNothing(s[..|s| - 1]);
    }
  }

  lemma AnEmptyFileHasNoKey(text: string, key: string)
    requires Trim(text) == ""
    ensures ValueSpan(text, key).None?
  {
    var rest := TrimLeft(text);
    TrimmedToNothing(rest);
    assert rest == "";
    assert forall i :: 0 <= i < |text| ==> IsSpace(text[i]);
    assert '"' !in text;
    NoQuoteNoKey(text, Code, Needle(key));
  }

  /** In a file that was empty, what is left is an empty object. */
  lemma AKeyOfANewFileIsUndone(text: string, key: string, value: string)
    requires WellFormed(value) && Trim(text) == ""
    ensures Upsert(text, key, value).Ok? && WithoutKey(Upsert(text, key, value).value, key) == Some("{\n}\n")
  {
    hide ValueSpan, HeadMode, Trim, ValueLength, Entry, WithoutKey;
    AnEmptyFileHasNoKey(text, key);
    ABraceOpens();
    InsertedIsTakenOut("{", "}\n", key, value, "\n");
    assert "{" + "\n" + "}\n" == "{\n}\n";
  }

  /**
    A new key goes on a line of its own behind the first brace; a comma follows it unless
    the next thing there, blanks aside, closes the object again.
   */
  lemma AnAddedKeyGoesWhere(text: string, key: string, value: string, open: nat, next: nat)
    requires ValueSpan(text, key).None? && Trim(text) != "" && open < next <= |text|
    requires text[open] == '{' && '{' !in text[..open]
    requires (forall i :: open < i < next ==> IsBlank(text[i])) && (next < |text| ==> !IsBlank(text[next]))
    ensures Upsert(text, key, value) ==
            Ok(text[..open + 1] + ("\n  \"" + key + "\": " + value + (if next < |text| && text[next] == '}' then "" else ",") + "\n") + text[open + 1..])
  {
    hide ValueSpan, Trim;
    TheFirstIs(text, '{', open);
    var rest := text[open + 1..];
    BlanksAre(rest, next - open - 1);
    var comma := if next < |text| && text[next] == '}' then "" else ",";
    assert Separator(rest) == comma + "\n";
    assert Entry(key, value, Separator(rest)) == "\n  \"" + key + "\": " + value + comma + "\n";
  }

  lemma {:induction false} TheFirstIs(s: string, c: char, i: nat)
    requires i < |s| && s[i] == c && c !in s[..i]
    ensures IndexOf(s, c) == Some(i)
  {
    if i > 0 {
      assert s[..i] == [s[0]] + s[1..][..i - 1];
      TheFirstIs(s[1..], c, i - 1);
    }
  }
}
