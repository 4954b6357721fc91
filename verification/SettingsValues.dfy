/**
  Values as the editor is given them: JSON text as a tree of strings (section 7 of RFC
  8259), brackets and other characters. Such values are well formed for the editor, and
  putting one in changes what no other setting reads as.
 */
module SettingsValues {
  import opened Strings
  import opened Wrappers
  import opened Settings
  import opened SettingsEdits

  /** A character of a string, as it is or behind a backslash. */
  datatype Piece = Raw(c: char) | Escaped(c: char)

  /** A string; a number, true, false or null with what blanks follow it; a bracket; or the punctuation in one. */
  datatype Item = Text(pieces: seq<Piece>) | Literal(text: string) | Other(c: char) | Group(square: bool, items: seq<Item>)

  function RenderPiece(p: Piece): string {
    if p.Raw? then [p.c] else ['\\', p.c]
  }

  function RenderPieces(ps: seq<Piece>): string {
    if ps == [] then "" else RenderPiece(ps[0]) + RenderPieces(ps[1..])
  }

  function Open(square: bool): char { if square then '[' else '{' }
  function Close(square: bool): char { if square then ']' else '}' }

  function Render(item: Item): string
    decreases item
  {
    match item
    case Text(ps) => "\"" + RenderPieces(ps) + "\""
    case Literal(text) => text
    case Other(c) => [c]
    case Group(square, items) => [Open(square)] + RenderAll(items) + [Close(square)]
  }

  function RenderAll(items: seq<Item>): string
    decreases items
  {
    if items == [] then "" else Render(items[0]) + RenderAll(items[1..])
  }

  predicate ValidPieces(ps: seq<Piece>) {
    forall i :: 0 <= i < |ps| ==> ps[i].Raw? ==> ps[i].c != '"' && ps[i].c != '\\'
  }

  /** A character outside strings and brackets. */
  predicate IsPlain(c: char) {
    c != '"' && c != '/' && c != '[' && c != ']' && c != '{' && c != '}'
  }

  predicate AllPlain(s: string) {
    forall i :: 0 <= i < |s| ==> IsPlain(s[i])
  }

  /** Outside strings and brackets there are no quotes, brackets or slashes: JSON has no comments. */
  predicate Valid(item: Item)
    decreases item
  {
    match item
    case Text(ps) => ValidPieces(ps)
    case Literal(text) => AllPlain(text)
    case Other(c) => IsPlain(c)
    case Group(_, items) => AllValid(items)
  }

  predicate AllValid(items: seq<Item>)
    decreases items
  {
    items == [] || (Valid(items[0]) && AllValid(items[1..]))
  }

  // ------------------------------------------------------------ they are well formed

  lemma {:induction false} PiecesReachTheQuote(ps: seq<Piece>, r: string)
    requires ValidPieces(ps)
    ensures ToQuote(RenderPieces(ps) + r) == Shift(|RenderPieces(ps)|, ToQuote(r))
    decreases |ps|
  {
    var s := RenderPieces(ps) + r;
    if ps == [] {
      assert s == r;
    } else {
      var rest := RenderPieces(ps[1..]) + r;
      assert s == RenderPiece(ps[0]) + rest;
      assert s[|RenderPiece(ps[0])|..] == rest;
      PiecesReachTheQuote(ps[1..], r);
    }
  }

  lemma {:induction false} PiecesStayInTheString(ps: seq<Piece>, r: string, open: char, close: char, depth: int)
    requires ValidPieces(ps)
    ensures ToClosing(RenderPieces(ps) + r, open, close, depth, true)
            == Shift(|RenderPieces(ps)|, ToClosing(r, open, close, depth, true))
    decreases |ps|
  {
    var s := RenderPieces(ps) + r;
    if ps == [] {
      assert s == r;
    } else {
      var rest := RenderPieces(ps[1..]) + r;
      assert s == RenderPiece(ps[0]) + rest;
      assert s[|RenderPiece(ps[0])|..] == rest;
      PiecesStayInTheString(ps[1..], r, open, close, depth);
    }
  }

  lemma OneMoreCharacter(c: char, r: string, open: char, close: char, depth: int, inString: bool)
    ensures ToClosing([c] + r, open, close, depth, inString) ==
            if inString && c == '\\' then ToClosing([c] + r, open, close, depth, true)
            else if inString then Shift(1, ToClosing(r, open, close, depth, c != '"'))
            else if c == '"' then Shift(1, ToClosing(r, open, close, depth, true))
            else if c == open then Shift(1, ToClosing(r, open, close, depth + 1, false))
            else if c == close && depth == 1 then Some(1)
            else Shift(1, ToClosing(r, open, close, if c == close then depth - 1 else depth, false))
  {
    assert ([c] + r)[1..] == r;
  }

  lemma {:induction false} PlainIsPassed(text: string, r: string, square: bool, depth: nat)
    requires AllPlain(text) && depth >= 1
    ensures ToClosing(text + r, Open(square), Close(square), depth, false)
            == Shift(|text|, ToClosing(r, Open(square), Close(square), depth, false))
    decreases |text|
  {
    hide ToClosing;
    if text == "" {
      assert text + r == r;
    } else {
      assert text + r == [text[0]] + (text[1..] + r);
      OneMoreCharacter(text[0], text[1..] + r, Open(square), Close(square), depth, false);
      PlainIsPassed(text[1..], r, square, depth);
    }
  }

  /** Inside a bracket, an item is passed over at the same depth. */
  lemma {:induction false} AnItemIsPassed(item: Item, r: string, square: bool, depth: nat)
    requires Valid(item) && depth >= 1
    ensures ToClosing(Render(item) + r, Open(square), Close(square), depth, false)
            == Shift(|Render(item)|, ToClosing(r, Open(square), Close(square), depth, false))
    decreases item
  {
    hide ToClosing;
    var open, close := Open(square), Close(square);
    match item
    case Text(ps) =>
      var tail := "\"" + r;
      assert Render(item) + r == "\"" + (RenderPieces(ps) + tail);
      OneMoreCharacter('"', RenderPieces(ps) + tail, open, close, depth, false);
      PiecesStayInTheString(ps, tail, open, close, depth);
      OneMoreCharacter('"', r, open, close, depth, true);
    case Literal(text) =>
      PlainIsPassed(text, r, square, depth);
    case Other(c) =>
      OneMoreCharacter(c, r, open, close, depth, false);
    case Group(q, items) =>
      var tail := [Close(q)] + r;
      assert Render(item) + r == [Open(q)] + (RenderAll(items) + tail);
      OneMoreCharacter(Open(q), RenderAll(items) + tail, open, close, depth, false);
      ItemsArePassed(items, tail, square, if q == square then depth + 1 else depth);
      OneMoreCharacter(Close(q), r, open, close, if q == square then depth + 1 else depth, false);
  }

  lemma {:induction false} ItemsArePassed(items: seq<Item>, r: string, square: bool, depth: nat)
    requires AllValid(items) && depth >= 1
    ensures ToClosing(RenderAll(items) + r, Open(square), Close(square), depth, false)
            == Shift(|RenderAll(items)|, ToClosing(r, Open(square), Close(square), depth, false))
    decreases items
  {
    hide ToClosing;
    if items == [] {
      assert RenderAll(items) + r == r;
    } else {
      var rest := RenderAll(items[1..]) + r;
      assert RenderAll(items) + r == Render(items[0]) + rest;
      AnItemIsPassed(items[0], rest, square, depth);
      ItemsArePassed(items[1..], r, square, depth);
    }
  }

  /** Every JSON string, array and object is a value the editor ends where it ends. */
  lemma JsonIsWellFormed(item: Item)
    requires Valid(item) && (item.Text? || item.Group?)
    ensures WellFormed(Render(item))
  {
    hide ToClosing, ToQuote;
    var v := Render(item);
    match item
    case Text(ps) =>
      assert v[1..] == RenderPieces(ps) + "\"";
      PiecesReachTheQuote(ps, "\"");
      TheQuoteEnds();
    case Group(q, items) =>
      var tail := [Close(q)] + "";
      assert v == [Open(q)] + (RenderAll(items) + tail);
      OneMoreCharacter(Open(q), RenderAll(items) + tail, Open(q), Close(q), 0, false);
      ItemsArePassed(items, tail, q, 1);
      OneMoreCharacter(Close(q), "", Open(q), Close(q), 1, false);
      assert Closer(Open(q)) == Close(q);
  }

  lemma TheQuoteEnds()
    ensures ToQuote("\"") == Some(1)
  {
  }

  // ------------------------------------------------------------ other settings

  predicate PlainKey(key: string) {
    '"' !in key && '\\' !in key
  }

  /** Whether a string of the item is the key. */
  predicate Mentions(item: Item, key: string)
    decreases item
  {
    match item
    case Text(ps) => RenderPieces(ps) == key
    case Literal(_) => false
    case Other(_) => false
    case Group(_, items) => AnyMentions(items, key)
  }

  predicate AnyMentions(items: seq<Item>, key: string)
    decreases items
  {
    items != [] && (Mentions(items[0], key) || AnyMentions(items[1..], key))
  }

  /** A string is taken for a key only if it is that key. */
  lemma {:induction false} OnlyTheKeyIsHit(ps: seq<Piece>, r: string, key: string)
    requires ValidPieces(ps) && PlainKey(key) && key + "\"" <= RenderPieces(ps) + "\"" + r
    ensures RenderPieces(ps) == key
    decreases |ps|
  {
    var s := RenderPieces(ps) + "\"" + r;
    var k := key + "\"";
    assert forall i :: 0 <= i < |k| ==> s[i] == s[..|k|][i] == k[i];
    assert key != "" ==> k[0] == key[0] && key[0] in key;
    if ps == [] {
      assert s[0] == '"';
    } else {
      assert s[0] == RenderPiece(ps[0])[0];
      assert k[0] == s[0];
      assert ps[0].Raw? && key != "";
      assert s[1..] == RenderPieces(ps[1..]) + "\"" + r;
      assert k[1..] == key[1..] + "\"";
      assert s[1..][..|k| - 1] == s[..|k|][1..];
      OnlyTheKeyIsHit(ps[1..], r, key[1..]);
      assert key == [key[0]] + key[1..];
    }
  }

  lemma {:induction false} PiecesAreScanned(ps: seq<Piece>, r: string, needle: string)
    requires ValidPieces(ps)
    ensures Find(RenderPieces(ps) + r, Quote, needle) == Shift(|RenderPieces(ps)|, Find(r, Quote, needle))
    decreases |ps|
  {
    hide Find;
    var s := RenderPieces(ps) + r;
    if ps == [] {
      assert s == r;
    } else {
      var rest := RenderPieces(ps[1..]) + r;
      assert s == RenderPiece(ps[0]) + rest;
      assert s[|RenderPiece(ps[0])|..] == rest;
      FindStep(s, Quote, needle);
      PiecesAreScanned(ps[1..], r, needle);
    }
  }

  lemma PastACharacter(c: char, r: string, m: Mode, needle: string)
    requires m == Code && (c != '"' || !(needle <= [c] + r)) && c != '/'
    ensures Find([c] + r, m, needle) == Shift(1, Find(r, if c == '"' then Quote else Code, needle))
  {
    hide Find;
    assert ([c] + r)[1..] == r;
    FindStep([c] + r, m, needle);
  }

  lemma PastTheQuote(r: string, needle: string)
    ensures Find("\"" + r, Quote, needle) == Shift(1, Find(r, Code, needle))
  {
    hide Find;
    assert ("\"" + r)[1..] == r;
    FindStep("\"" + r, Quote, needle);
  }

  /** Characters that open nothing. */
  predicate Quiet(s: string) {
    forall i :: 0 <= i < |s| ==> s[i] != '"' && s[i] != '/'
  }

  lemma {:induction false} QuietIsPassed(s: string, r: string, needle: string)
    requires Quiet(s)
    ensures Find(s + r, Code, needle) == Shift(|s|, Find(r, Code, needle))
    decreases |s|
  {
    hide Find;
    if s == "" {
      assert s + r == r;
    } else {
      assert s + r == [s[0]] + (s[1..] + r);
      PastACharacter(s[0], s[1..] + r, Code, needle);
      QuietIsPassed(s[1..], r, needle);
    }
  }

  /** The scan passes over an item that does not mention the key and is in code again. */
  lemma {:induction false} AnItemIsScanned(item: Item, r: string, key: string)
    requires Valid(item) && PlainKey(key) && !Mentions(item, key)
    ensures Find(Render(item) + r, Code, Needle(key)) == Shift(|Render(item)|, Find(r, Code, Needle(key)))
    decreases item
  {
    hide Find, Needle;
    var needle := Needle(key);
    match item
    case Text(ps) =>
      AStringIsScanned(ps, r, key);
    case Literal(text) =>
      QuietIsPassed(text, r, needle);
    case Other(c) =>
      PastACharacter(c, r, Code, needle);
    case Group(q, items) =>
      var tail := [Close(q)] + r;
      assert Render(item) + r == [Open(q)] + (RenderAll(items) + tail);
      PastACharacter(Open(q), RenderAll(items) + tail, Code, needle);
      ItemsAreScanned(items, tail, key);
      PastACharacter(Close(q), r, Code, needle);
  }

  lemma AStringIsScanned(ps: seq<Piece>, r: string, key: string)
    requires ValidPieces(ps) && PlainKey(key) && RenderPieces(ps) != key
    ensures Find(Render(Text(ps)) + r, Code, Needle(key)) == Shift(|Render(Text(ps))|, Find(r, Code, Needle(key)))
  {
    hide Find, Needle, ValidPieces, RenderPieces;
    var needle := Needle(key);
    var tail := RenderPieces(ps) + ("\"" + r);
    assert Render(Text(ps)) + r == "\"" + tail;
    TheStringIsNotTheKey(ps, r, key);
    PastACharacter('"', tail, Code, needle);
    PiecesAreScanned(ps, "\"" + r, needle);
    PastTheQuote(r, needle);
  }

  lemma TheStringIsNotTheKey(ps: seq<Piece>, r: string, key: string)
    requires ValidPieces(ps) && PlainKey(key) && RenderPieces(ps) != key
    ensures !(Needle(key) <= "\"" + (RenderPieces(ps) + ("\"" + r)))
  {
    var s := "\"" + (RenderPieces(ps) + ("\"" + r));
    var needle := Needle(key);
    assert s[1..] == RenderPieces(ps) + "\"" + r;
    assert needle[1..] == key + "\"";
    if needle <= s {
      assert s[1..][..|needle| - 1] == s[..|needle|][1..];
      OnlyTheKeyIsHit(ps, r, key);
    }
  }

  lemma {:induction false} ItemsAreScanned(items: seq<Item>, r: string, key: string)
    requires AllValid(items) && PlainKey(key) && !AnyMentions(items, key)
    ensures Find(RenderAll(items) + r, Code, Needle(key)) == Shift(|RenderAll(items)|, Find(r, Code, Needle(key)))
    decreases items
  {
    hide Find;
    if items == [] {
      assert RenderAll(items) + r == r;
    } else {
      var rest := RenderAll(items[1..]) + r;
      assert RenderAll(items) + r == Render(items[0]) + rest;
      AnItemIsScanned(items[0], rest, key);
      ItemsAreScanned(items[1..], r, key);
    }
  }
}
