/**
  Editing one setting of an editor's settings file (internal/editors/settings.go) without
  parsing it: the file is JSON with comments, and everything but the one entry must stay as
  it is. Bytes are characters here; everything the editor looks for is ASCII.
 */
module Settings {
  import opened Strings
  import opened Wrappers

  // ------------------------------------------------------------ the scan

  /** Where a scan is: in code, in a line or block comment, or in a string. */
  datatype Mode = Code | Line | Block | Quote

  /** The mode after the next token of s, and how many characters it takes. */
  function Step(s: string, m: Mode): (r: (Mode, nat))
    requires s != ""
    ensures 1 <= r.1 <= 2 && r.1 <= |s|
  {
    var pair := |s| >= 2;
    match m
    case Line => (if s[0] == '\n' then Code else Line, 1)
    case Block => if s[0] == '*' && pair && s[1] == '/' then (Code, 2) else (Block, 1)
    case Quote => if s[0] == '\\' then (Quote, if pair then 2 else 1) else (if s[0] == '"' then Code else Quote, 1)
    case Code =>
      if s[0] == '/' && pair && s[1] == '/' then (Line, 2)
      else if s[0] == '/' && pair && s[1] == '*' then (Block, 2)
      else (if s[0] == '"' then Quote else Code, 1)
  }

  predicate Hit(s: string, m: Mode, needle: string) {
    s != "" && m == Code && s[0] == '"' && needle <= s
  }

  function Shift(n: nat, o: Option<nat>): Option<nat> {
    if o.Some? then Some(n + o.value) else None
  }

  /** The first place in code where the needle starts. */
  function Find(s: string, m: Mode, needle: string): (r: Option<nat>)
    ensures r.Some? ==> r.value < |s| && needle <= s[r.value..]
    decreases |s|
  {
    if s == "" then None
    else if Hit(s, m, needle) then Some(0)
    else
      var (m', n) := Step(s, m);
      Shift(n, Find(s[n..], m', needle))
  }

  lemma FindStep(s: string, m: Mode, needle: string)
    requires s != ""
    ensures Find(s, m, needle) ==
            if Hit(s, m, needle) then Some(0)
            else
              var (m', n) := Step(s, m);
              Shift(n, Find(s[n..], m', needle))
  {
  }

  method IndexOutsideString(text: string, needle: string) returns (r: Option<nat>)
    ensures r == Find(text, Code, needle)
  {
    hide Find, Hit, Reached;
    var inString, inLine, inBlock := false, false, false;
    var i := 0;
    ReachedFromTheStart(text, needle);
    while i < |text|
      invariant 0 <= i <= |text|
      invariant !(inString && inLine) && !(inString && inBlock) && !(inLine && inBlock)
      invariant Reached(text, i, ModeOf(inString, inLine, inBlock), needle)
    {
      var c := text[i];
      ghost var at, mode, rest := i, ModeOf(inString, inLine, inBlock), text[i..];
      assert rest[0] == c && (|rest| >= 2 <==> i + 1 < |text|) && (|rest| >= 2 ==> rest[1] == text[i + 1]);
      if inLine {
        if c == '\n' {
          inLine := false;
        }
      } else if inBlock {
        if c == '*' && i + 1 < |text| && text[i + 1] == '/' {
          inBlock := false;
          i := i + 1;
        }
      } else if inString {
        if c == '\\' {
          i := if i + 1 < |text| then i + 1 else i;
        } else if c == '"' {
          inString := false;
        }
      } else if c == '/' && i + 1 < |text| && text[i + 1] == '/' {
        inLine := true;
        i := i + 1;
      } else if c == '/' && i + 1 < |text| && text[i + 1] == '*' {
        inBlock := true;
        i := i + 1;
      } else if c == '"' {
        if needle <= text[i..] {
          HitWhereReached(text, i, needle);
          return Some(i);
        }
        inString := true;
      }
      i := i + 1;
      assert Step(rest, mode) == (ModeOf(inString, inLine, inBlock), i - at);
      ReachedNext(text, at, mode, needle);
    }
    ReachedTheEnd(text, ModeOf(inString, inLine, inBlock), needle);
    r := None;
  }

  /** The scan has come to i in a mode without finding the needle. */
  predicate Reached(text: string, i: nat, m: Mode, needle: string)
    requires i <= |text|
  {
    Find(text, Code, needle) == Shift(i, Find(text[i..], m, needle))
  }

  lemma ReachedFromTheStart(text: string, needle: string)
    ensures Reached(text, 0, Code, needle)
  {
    assert text[0..] == text;
  }

  lemma ReachedNext(text: string, i: nat, m: Mode, needle: string)
    requires i < |text| && Reached(text, i, m, needle)
    requires text[i] == '"' && m == Code ==> !(needle <= text[i..])
    ensures var (m', n) := Step(text[i..], m); Reached(text, i + n, m', needle)
  {
    hide Find, Step, Hit;
    var s := text[i..];
    NoHit(s, m, needle);
    FindStep(s, m, needle);
    var (m', n) := Step(s, m);
    TailOfTail(text, i, n);
    assert Find(s, m, needle) == Shift(n, Find(text[i + n..], m', needle));
  }

  lemma NoHit(s: string, m: Mode, needle: string)
    requires s != "" && (s[0] == '"' && m == Code ==> !(needle <= s))
    ensures !Hit(s, m, needle)
  {
  }

  lemma TailOfTail(s: string, i: nat, n: nat)
    requires i + n <= |s|
    ensures s[i..][n..] == s[i + n..]
  {
  }

  lemma HitWhereReached(text: string, i: nat, needle: string)
    requires i < |text| && text[i] == '"' && needle <= text[i..] && Reached(text, i, Code, needle)
    ensures Find(text, Code, needle) == Some(i)
  {
  }

  lemma ReachedTheEnd(text: string, m: Mode, needle: string)
    requires Reached(text, |text|, m, needle)
    ensures Find(text, Code, needle) == None
  {
    assert text[|text|..] == "";
  }

  function ModeOf(inString: bool, inLine: bool, inBlock: bool): Mode {
    if inLine then Line else if inBlock then Block else if inString then Quote else Code
  }

  // ------------------------------------------------------------ the value

  predicate IsBlank(c: char) {
    c == ' ' || c == '\t' || c == '\n' || c == '\r'
  }

  /** How many blanks s starts with. */
  function Blanks(s: string): (n: nat)
    ensures n <= |s| && forall i :: 0 <= i < n ==> IsBlank(s[i])
    ensures n < |s| ==> !IsBlank(s[n])
  {
    if s == "" || !IsBlank(s[0]) then 0 else 1 + Blanks(s[1..])
  }

  /** From after a key to its value: blanks, a colon, blanks. */
  function ToValue(s: string): (r: Option<nat>)
    ensures r.Some? ==> r.value < |s| && !IsBlank(s[r.value])
  {
    var j := Blanks(s);
    if j == |s| || s[j] != ':' then None
    else
      var a := j + 1 + Blanks(s[j + 1..]);
      if a == |s| then None else Some(a)
  }

  /** The length of a string's text up to and with its closing quote, from after the opening one. */
  function ToQuote(s: string): (r: Option<nat>)
    ensures r.Some? ==> 1 <= r.value <= |s|
    decreases |s|
  {
    if s == "" then None
    else if s[0] == '\\' then (if |s| == 1 then None else Shift(2, ToQuote(s[2..])))
    else if s[0] == '"' then Some(1)
    else Shift(1, ToQuote(s[1..]))
  }

  /** The length of a bracket's text up to and with the one that closes it; strings are skipped. */
  function ToClosing(s: string, open: char, close: char, depth: int, inString: bool): (r: Option<nat>)
    ensures r.Some? ==> 1 <= r.value <= |s|
    decreases |s|
  {
    if s == "" then None
    else if inString then
      if s[0] == '\\' then (if |s| == 1 then None else Shift(2, ToClosing(s[2..], open, close, depth, true)))
      else Shift(1, ToClosing(s[1..], open, close, depth, s[0] != '"'))
    else if s[0] == '"' then Shift(1, ToClosing(s[1..], open, close, depth, true))
    else if s[0] == open then Shift(1, ToClosing(s[1..], open, close, depth + 1, false))
    else if s[0] == close then (if depth == 1 then Some(1) else Shift(1, ToClosing(s[1..], open, close, depth - 1, false)))
    else Shift(1, ToClosing(s[1..], open, close, depth, false))
  }

  function Closer(open: char): char {
    if open == '[' then ']' else '}'
  }

  /** Anything else runs to a comma, a line's end or a closing brace. */
  function Plainly(s: string): (n: nat)
    ensures n <= |s| && forall i :: 0 <= i < n ==> !IsStop(s[i])
    ensures n < |s| ==> IsStop(s[n])
  {
    if s == "" || IsStop(s[0]) then 0 else 1 + Plainly(s[1..])
  }

  predicate IsStop(c: char) {
    c == ',' || c == '\n' || c == '}'
  }

  predicate Delimited(c: char) {
    c == '[' || c == '{' || c == '"'
  }

  function ValueLength(s: string): (r: Option<nat>)
    requires s != ""
    ensures r.Some? ==> r.value <= |s|
  {
    if s[0] == '[' || s[0] == '{' then ToClosing(s, s[0], Closer(s[0]), 0, false)
    else if s[0] == '"' then Shift(1, ToQuote(s[1..]))
    else Some(Plainly(s))
  }

  function Needle(key: string): string {
    "\"" + key + "\""
  }

  /** Where the value starts and ends, given where its key was found. */
  function SpanAt(text: string, i: nat, needle: string): (r: Option<(nat, nat)>)
    requires i + |needle| <= |text|
    ensures r.Some? ==> i + |needle| < r.value.0 <= r.value.1 <= |text| && r.value.0 < |text|
  {
    var k := i + |needle|;
    var a := ToValue(text[k..]);
    if a.None? then None
    else
      var start := k + a.value;
      var n := ValueLength(text[start..]);
      if n.None? then None else Some((start, start + n.value))
  }

  function ValueSpan(text: string, key: string): (r: Option<(nat, nat)>)
    ensures r.Some? ==> |key| + 2 < r.value.0 <= r.value.1 <= |text| && r.value.0 < |text|
  {
    var i := Find(text, Code, Needle(key));
    if i.None? then None else SpanAt(text, i.value, Needle(key))
  }

  function FindValue(text: string, key: string): Option<string> {
    var span := ValueSpan(text, key);
    if span.None? then None else Some(text[span.value.0..span.value.1])
  }

  method SkipBlanks(text: string, from: nat) returns (j: nat)
    requires from <= |text|
    ensures j == from + Blanks(text[from..])
  {
    j := from;
    while j < |text| && IsBlank(text[j])
      invariant from <= j <= |text| && from + Blanks(text[from..]) == j + Blanks(text[j..])
    {
      assert text[j..][1..] == text[j + 1..];
      j := j + 1;
    }
    assert j < |text| ==> text[j..][0] == text[j];
  }

  /** The index of the bracket closing the one at open. */
  method MatchBracket(text: string, open: nat) returns (r: Option<nat>)
    requires open < |text| && (text[open] == '[' || text[open] == '{')
    ensures var n := ToClosing(text[open..], text[open], Closer(text[open]), 0, false);
            r == if n.None? then None else Some(open + n.value - 1)
  {
    hide ToClosing;
    var closer := Closer(text[open]);
    var depth, inString := 0, false;
    var i := open;
    while i < |text|
      invariant open <= i <= |text|
      invariant ToClosing(text[open..], text[open], closer, 0, false)
                == Shift(i - open, ToClosing(text[i..], text[open], closer, depth, inString))
    {
      var c := text[i];
      ClosingSteps(text, i, text[open], closer, depth, inString);
      if inString {
        if c == '\\' {
          i := if i + 1 < |text| then i + 2 else i + 1;
          continue;
        }
        if c == '"' {
          inString := false;
        }
      } else if c == '"' {
        inString := true;
      } else if c == text[open] {
        depth := depth + 1;
      } else if c == closer {
        depth := depth - 1;
        if depth == 0 {
          return Some(i);
        }
      }
      i := i + 1;
    }
    assert text[i..] == "";
    NothingCloses(text[open], closer, depth, inString);
    r := None;
  }

  lemma ClosingSteps(text: string, i: nat, open: char, close: char, depth: int, inString: bool)
    requires i < |text|
    ensures var c := text[i];
            ToClosing(text[i..], open, close, depth, inString) ==
            if inString then
              if c == '\\' then Shift(if i + 1 < |text| then 2 else 1,
                                       ToClosing(text[if i + 1 < |text| then i + 2 else i + 1..], open, close, depth, true))
              else Shift(1, ToClosing(text[i + 1..], open, close, depth, c != '"'))
            else if c == '"' then Shift(1, ToClosing(text[i + 1..], open, close, depth, true))
            else if c == open then Shift(1, ToClosing(text[i + 1..], open, close, depth + 1, false))
            else if c == close && depth == 1 then Some(1)
            else Shift(1, ToClosing(text[i + 1..], open, close, if c == close then depth - 1 else depth, false))
  {
    var s := text[i..];
    assert s[0] == text[i] && s[1..] == text[i + 1..];
    assert |s| >= 2 ==> s[2..] == text[i + 2..];
    NothingCloses(open, close, depth, true);
  }

  lemma NothingCloses(open: char, close: char, depth: int, inString: bool)
    ensures ToClosing("", open, close, depth, inString) == None
  {
  }

  /** The end of a string value that starts at j. */
  method StringEnd(text: string, j: nat) returns (end: Option<nat>)
    requires j < |text|
    ensures end == Shift(j + 1, ToQuote(text[j + 1..]))
  {
    hide ToQuote;
    var k := j + 1;
    while k < |text|
      invariant j + 1 <= k <= |text|
      invariant ToQuote(text[j + 1..]) == Shift(k - (j + 1), ToQuote(text[k..]))
    {
      QuoteSteps(text, k);
      if text[k] == '\\' {
        k := if k + 1 < |text| then k + 2 else k + 1;
        continue;
      }
      if text[k] == '"' {
        return Some(k + 1);
      }
      k := k + 1;
    }
    assert text[k..] == "";
    assert ToQuote("") == None by { NoQuote(); }
    end := None;
  }

  lemma NoQuote()
    ensures ToQuote("") == None
  {
  }

  /** The end of any other value that starts at j. */
  method PlainEnd(text: string, j: nat) returns (k: nat)
    requires j <= |text|
    ensures k == j + Plainly(text[j..])
  {
    k := j;
    while k < |text| && text[k] != ',' && text[k] != '\n' && text[k] != '}'
      invariant j <= k <= |text| && j + Plainly(text[j..]) == k + Plainly(text[k..])
    {
      assert text[k..][1..] == text[k + 1..];
      k := k + 1;
    }
    assert k < |text| ==> text[k..][0] == text[k];
  }

  /** The end of the value that starts at j. */
  method ValueEnd(text: string, j: nat) returns (end: Option<nat>)
    requires j < |text|
    ensures end == Shift(j, ValueLength(text[j..]))
  {
    hide ToQuote, ToClosing, Plainly;
    assert text[j..][0] == text[j] && text[j..][1..] == text[j + 1..];
    if text[j] == '[' || text[j] == '{' {
      var closing := MatchBracket(text, j);
      end := if closing.None? then None else Some(closing.value + 1);
    } else if text[j] == '"' {
      end := StringEnd(text, j);
    } else {
      var k := PlainEnd(text, j);
      end := Some(k);
    }
  }

  /** From after a key to its value. */
  method FindStart(text: string, after: nat) returns (start: Option<nat>)
    requires after <= |text|
    ensures start == Shift(after, ToValue(text[after..]))
  {
    hide Blanks;
    var j := SkipBlanks(text, after);
    if j >= |text| || text[j] != ':' {
      return None;
    }
    TailOfTail(text, after, j - after + 1);
    j := SkipBlanks(text, j + 1);
    start := if j >= |text| then None else Some(j);
  }

  method ValueSpanOf(text: string, key: string) returns (span: Option<(nat, nat)>)
    ensures span == ValueSpan(text, key)
  {
    hide Find, ValueLength, ToValue;
    var needle := "\"" + key + "\"";
    var found := IndexOutsideString(text, needle);
    if found.None? {
      return None;
    }
    var start := FindStart(text, found.value + |needle|);
    if start.None? {
      return None;
    }
    var end := ValueEnd(text, start.value);
    span := if end.None? then None else Some((start.value, end.value));
  }

  lemma QuoteSteps(text: string, k: nat)
    requires k < |text|
    ensures ToQuote(text[k..]) ==
            if text[k] == '\\' then Shift(if k + 1 < |text| then 2 else 1, ToQuote(text[if k + 1 < |text| then k + 2 else k + 1..]))
            else if text[k] == '"' then Some(1)
            else Shift(1, ToQuote(text[k + 1..]))
  {
    var s := text[k..];
    assert s[0] == text[k] && s[1..] == text[k + 1..];
    assert |s| >= 2 ==> s[2..] == text[k + 2..];
    assert ToQuote("") == None;
  }

  // ------------------------------------------------------------ the two edits

  function IndexOf(s: string, c: char): (r: Option<nat>)
    ensures r.Some? ==> r.value < |s| && s[r.value] == c && c !in s[..r.value]
    ensures r.None? ==> c !in s
  {
    if s == "" then None else if s[0] == c then Some(0) else
      assert s == [s[0]] + s[1..];
      var i := IndexOf(s[1..], c);
      assert i.Some? ==> s[..i.value + 1] == [s[0]] + s[1..][..i.value];
      Shift(1, i)
  }

  datatype EditError = NotAnObject

  function Separator(rest: string): string {
    var n := Blanks(rest);
    if n < |rest| && rest[n] == '}' then "\n" else ",\n"
  }

  function Entry(key: string, value: string, separator: string): string {
    "\n  " + Needle(key) + ": " + value + separator
  }

  /** Replaces a key's value, or adds the key after the first brace when it is absent. */
  function Upsert(text: string, key: string, value: string): Result<string, EditError> {
    var span := ValueSpan(text, key);
    if span.Some? then Ok(text[..span.value.0] + value + text[span.value.1..])
    else if Trim(text) == "" then Ok("{" + Entry(key, value, "\n") + "}\n")
    else
      var open := IndexOf(text, '{');
      if open.None? then Err(NotAnObject)
      else
        var rest := text[open.value + 1..];
        Ok(text[..open.value + 1] + Entry(key, value, Separator(rest)) + rest)
  }

  function LastIndex(s: string, p: string): (r: Option<nat>)
    ensures r.Some? ==> r.value <= |s| && p <= s[r.value..] && forall i :: r.value < i <= |s| ==> !(p <= s[i..])
    ensures r.None? ==> forall i :: 0 <= i <= |s| ==> !(p <= s[i..])
  {
    LastFrom(s, p, |s|)
  }

  function LastFrom(s: string, p: string, n: nat): (r: Option<nat>)
    requires n <= |s|
    ensures r.Some? ==> r.value <= n && p <= s[r.value..] && forall i :: r.value < i <= n ==> !(p <= s[i..])
    ensures r.None? ==> forall i :: 0 <= i <= n ==> !(p <= s[i..])
    decreases n
  {
    if p <= s[n..] then Some(n) else if n == 0 then None else LastFrom(s, p, n - 1)
  }

  predicate IsSpaceOrTab(c: char) {
    c == ' ' || c == '\t'
  }

  /** s without the spaces and tabs it ends in. */
  function Backed(s: string): (n: nat)
    ensures n <= |s| && forall i :: n <= i < |s| ==> IsSpaceOrTab(s[i])
    ensures n > 0 ==> !IsSpaceOrTab(s[n - 1])
    decreases |s|
  {
    if s != "" && IsSpaceOrTab(s[|s| - 1]) then Backed(s[..|s| - 1]) else |s|
  }

  /** How many spaces and tabs s starts with. */
  function Spaces(s: string): (n: nat)
    ensures n <= |s| && forall i :: 0 <= i < n ==> IsSpaceOrTab(s[i])
    ensures n < |s| ==> !IsSpaceOrTab(s[n])
  {
    if s == "" || !IsSpaceOrTab(s[0]) then 0 else 1 + Spaces(s[1..])
  }

  function OneOf(s: string, c: char): nat {
    if s != "" && s[0] == c then 1 else 0
  }

  /** What goes with an entry's value: its comma and the end of its line. */
  function Trail(s: string): (n: nat)
    ensures n <= |s|
  {
    var a := Spaces(s);
    var b := a + OneOf(s[a..], ',');
    var c := b + Spaces(s[b..]);
    c + OneOf(s[c..], '\n')
  }

  /** The text without a key's entry; None when there was nothing to take out. */
  function WithoutKey(text: string, key: string): Option<string> {
    var span := ValueSpan(text, key);
    if span.None? then None
    else
      var keyStart := LastIndex(text[..span.value.0], Needle(key));
      if keyStart.None? then None
      else Some(text[..Backed(text[..keyStart.value])] + text[span.value.1 + Trail(text[span.value.1..])..])
  }

  method SkipSpaces(text: string, from: nat) returns (end: nat)
    requires from <= |text|
    ensures end == from + Spaces(text[from..])
  {
    end := from;
    while end < |text| && IsSpaceOrTab(text[end])
      invariant from <= end <= |text| && from + Spaces(text[from..]) == end + Spaces(text[end..])
    {
      assert text[end..][1..] == text[end + 1..];
      end := end + 1;
    }
    assert end < |text| ==> text[end..][0] == text[end];
  }

  method TakeOut(text: string, key: string) returns (out: string, changed: bool)
    ensures WithoutKey(text, key) == if changed then Some(out) else None
    ensures !changed ==> out == text
  {
    hide ValueSpan, Spaces, Backed;
    var span := ValueSpanOf(text, key);
    if span.None? {
      return text, false;
    }
    var (start, end) := span.value;
    var found := LastIndex(text[..start], "\"" + key + "\"");
    if found.None? {
      return text, false;
    }
    var keyStart := BackOver(text, found.value);
    var from := end;
    end := SkipSpaces(text, end);
    assert text[from..][end - from..] == text[end..];
    if end < |text| && text[end] == ',' {
      end := end + 1;
    }
    assert text[from..][end - from..] == text[end..];
    end := SkipSpaces(text, end);
    assert text[from..][end - from..] == text[end..];
    if end < |text| && text[end] == '\n' {
      end := end + 1;
    }
    assert end == from + Trail(text[from..]);
    assert text[..start][..found.value] == text[..found.value];
    return text[..keyStart] + text[end..], true;
  }

  method BackOver(text: string, from: nat) returns (k: nat)
    requires from <= |text|
    ensures k == Backed(text[..from])
  {
    k := from;
    while k > 0 && IsSpaceOrTab(text[k - 1])
      invariant 0 <= k <= from && Backed(text[..from]) == Backed(text[..k])
    {
      assert text[..k][..k - 1] == text[..k - 1];
      k := k - 1;
    }
    assert k > 0 ==> text[..k][k - 1] == text[k - 1];
  }
}
