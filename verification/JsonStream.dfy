/** JSON texts as RFC 8259 spells them: structure (section 2), literal names (section 3), objects
    (section 4), arrays (section 5), numbers (section 6) and strings (section 7), with their white
    space. */
module JsonGrammar {
  import opened Options

  /** Insignificant white space of section 2. */
  predicate IsJsonSpace(c: char) {
    c == ' ' || c == '\t' || c == '\n' || c == '\r'
  }

  ghost predicate AllJsonSpace(s: string) {
    forall i :: 0 <= i < |s| ==> IsJsonSpace(s[i])
  }

  /** One character of a string: itself, or an escape. */
  datatype StringChar = Plain(c: char) | Escape(c: char) | Unicode(hex: string)

  predicate IsHex(c: char) {
    '0' <= c <= '9' || 'a' <= c <= 'f' || 'A' <= c <= 'F'
  }

  ghost predicate ValidChar(c: StringChar) {
    match c
    case Plain(c) => c != '"' && c != '\\' && c >= ' '
    case Escape(c) => c in "\"\\/bfnrt"
    case Unicode(hex) => |hex| == 4 && forall i :: 0 <= i < 4 ==> IsHex(hex[i])
  }

  function CharText(c: StringChar): string {
    match c
    case Plain(c) => [c]
    case Escape(c) => ['\\', c]
    case Unicode(hex) => ['\\', 'u'] + hex
  }

  function CharsText(cs: seq<StringChar>): string {
    if cs == [] then "" else CharText(cs[0]) + CharsText(cs[1..])
  }

  ghost predicate ValidChars(cs: seq<StringChar>) {
    forall i :: 0 <= i < |cs| ==> ValidChar(cs[i])
  }

  function Quoted(cs: seq<StringChar>): string {
    "\"" + CharsText(cs) + "\""
  }

  /** A number: an optional minus, the whole part, an optional fraction, an optional exponent. */
  datatype Number = Number(minus: bool, whole: string, fraction: Option<string>, exponent: Option<Exponent>)

  datatype Exponent = Exponent(mark: char, sign: string, digits: string)

  predicate IsDigit(c: char) { '0' <= c <= '9' }

  ghost predicate Digits(s: string) {
    s != "" && forall i :: 0 <= i < |s| ==> IsDigit(s[i])
  }

  /** The whole part has no leading zero. */
  ghost predicate ValidNumber(n: Number) {
    && Digits(n.whole) && (n.whole[0] == '0' ==> |n.whole| == 1)
    && (n.fraction.Some? ==> Digits(n.fraction.value))
    && (n.exponent.Some? ==>
          && (n.exponent.value.mark == 'e' || n.exponent.value.mark == 'E')
          && (n.exponent.value.sign == "" || n.exponent.value.sign == "+" || n.exponent.value.sign == "-")
          && Digits(n.exponent.value.digits))
  }

  function NumberText(n: Number): string {
    (if n.minus then "-" else "") + n.whole
    + (if n.fraction.Some? then "." + n.fraction.value else "")
    + (if n.exponent.Some? then [n.exponent.value.mark] + n.exponent.value.sign + n.exponent.value.digits else "")
  }

  /** A value; `before` and `after` are the white space around it. */
  datatype Value =
    | Null | True | False
    | Numeric(number: Number)
    | Text(chars: seq<StringChar>)
    | Array(space: string, items: seq<Item>)
    | Object(space: string, members: seq<Member>)

  datatype Item = Item(before: string, value: Value, after: string)

  datatype Member = Member(before: string, name: seq<StringChar>, colon: string, item: Item)

  ghost predicate Valid(v: Value)
    decreases v, 1
  {
    match v
    case Null => true
    case True => true
    case False => true
    case Numeric(number) => ValidNumber(number)
    case Text(chars) => ValidChars(chars)
    case Array(space, items) => AllJsonSpace(space) && ValidItems(items)
    case Object(space, members) => AllJsonSpace(space) && ValidMembers(members)
  }

  ghost predicate ValidItem(i: Item)
    decreases i, 2
  {
    AllJsonSpace(i.before) && Valid(i.value) && AllJsonSpace(i.after)
  }

  ghost predicate ValidItems(items: seq<Item>)
    decreases items, 0
  {
    items == [] || (ValidItem(items[0]) && ValidItems(items[1..]))
  }

  ghost predicate ValidMembers(members: seq<Member>)
    decreases members, 0
  {
    members == [] ||
    (AllJsonSpace(members[0].before) && ValidChars(members[0].name) && AllJsonSpace(members[0].colon)
     && ValidItem(members[0].item) && ValidMembers(members[1..]))
  }

  function ValueText(v: Value): string
    decreases v, 1
  {
    match v
    case Null => "null"
    case True => "true"
    case False => "false"
    case Numeric(number) => NumberText(number)
    case Text(chars) => Quoted(chars)
    case Array(space, items) => "[" + space + ItemsText(items) + "]"
    case Object(space, members) => "{" + space + MembersText(members) + "}"
  }

  function ItemText(i: Item): string
    decreases i, 2
  {
    i.before + ValueText(i.value) + i.after
  }

  function ItemsText(items: seq<Item>): string
    decreases items, 0
  {
    if items == [] then ""
    else if |items| == 1 then ItemText(items[0])
    else ItemText(items[0]) + "," + ItemsText(items[1..])
  }

  function MemberText(m: Member): string
    decreases m, 3
  {
    m.before + Quoted(m.name) + m.colon + ":" + ItemText(m.item)
  }

  function MembersText(members: seq<Member>): string
    decreases members, 0
  {
    if members == [] then ""
    else if |members| == 1 then MemberText(members[0])
    else MemberText(members[0]) + "," + MembersText(members[1..])
  }
}

/** `jsonObjects`: the scanner that cuts a stream of concatenated objects. */
module JsonStream {
  import JsonGrammar

  /** What JavaScript's `\s` matches. */
  predicate IsSpace(c: char) {
    c == ' ' || ('\t' <= c <= '\r') || c == '\U{A0}' || c == '\U{1680}' || ('\U{2000}' <= c <= '\U{200A}')
    || c == '\U{2028}' || c == '\U{2029}' || c == '\U{202F}' || c == '\U{205F}' || c == '\U{3000}' || c == '\U{FEFF}'
  }

  /** White space and line terminators of sections 12.2 and 12.3 of ECMA-262: tab, vertical tab, form feed,
      byte order mark and the space separators; line feed, carriage return, line and paragraph separator. */
  const TABS := {'\U{0009}', '\U{000B}', '\U{000C}', '\U{FEFF}'}
  const SPACE_SEPARATORS := {'\U{0020}', '\U{00A0}', '\U{1680}', '\U{2000}', '\U{2001}', '\U{2002}', '\U{2003}',
                             '\U{2004}', '\U{2005}', '\U{2006}', '\U{2007}', '\U{2008}', '\U{2009}', '\U{200A}',
                             '\U{202F}', '\U{205F}', '\U{3000}'}
  const LINE_TERMINATORS := {'\U{000A}', '\U{000D}', '\U{2028}', '\U{2029}'}

  /** The scanner skips just those, and so every white space of JSON. */
  lemma SpaceExact(c: char)
    ensures IsSpace(c) <==> c in TABS || c in SPACE_SEPARATORS || c in LINE_TERMINATORS
    ensures JsonGrammar.IsJsonSpace(c) ==> IsSpace(c)
  {
  }

  ghost predicate AllSpace(s: string) {
    forall i :: 0 <= i < |s| ==> IsSpace(s[i])
  }

  /** The scanner's three variables inside one candidate object. */
  datatype Mode = Mode(depth: int, inString: bool, escape: bool)

  const START := Mode(0, false, false)

  function Next(m: Mode, c: char): Mode {
    if m.inString then
      if m.escape then m.(escape := false)
      else if c == '\\' then m.(escape := true)
      else if c == '"' then m.(inString := false)
      else m
    else if c == '"' then m.(inString := true)
    else if c == '{' then m.(depth := m.depth + 1)
    else if c == '}' then m.(depth := m.depth - 1)
    else m
  }

  /** This character closes the candidate. */
  predicate Closes(m: Mode, c: char) {
    !m.inString && c == '}' && m.depth == 1
  }

  /** Where the candidate that starts at `i` in mode `m` ends: just behind the brace that closes it,
      or nowhere. */
  function End(text: string, i: nat, m: Mode): (end: int)
    requires i <= |text|
    ensures end == -1 || i < end <= |text|
    decreases |text| - i
  {
    if i == |text| then -1
    else if Closes(m, text[i]) then i + 1
    else End(text, i + 1, Next(m, text[i]))
  }

  function SkipSpace(text: string, i: nat): (j: nat)
    requires i <= |text|
    ensures i <= j <= |text|
    decreases |text| - i
  {
    if i < |text| && IsSpace(text[i]) then SkipSpace(text, i + 1) else i
  }

  /** The candidates handed to the parser, in order. */
  function Pieces(text: string, i: nat): seq<string>
    requires i <= |text|
    decreases |text| - i
  {
    var start := SkipSpace(text, i);
    if start == |text| then []
    else
      var end := End(text, start, START);
      if end == -1 then [] else [text[start..end]] + Pieces(text, end)
  }

  /** `JSON.parse` throws on the first piece it does not accept. */
  function Accepted(pieces: seq<string>, accepts: string -> bool): seq<string> {
    if pieces == [] || !accepts(pieces[0]) then [] else [pieces[0]] + Accepted(pieces[1..], accepts)
  }

  /** What is yielded is a beginning of the pieces, up to the first one the parser refuses. */
  ghost predicate UpToRefused(objects: seq<string>, pieces: seq<string>, accepts: string -> bool) {
    && |objects| <= |pieces| && objects == pieces[..|objects|]
    && (forall i :: 0 <= i < |objects| ==> accepts(objects[i]))
    && (|objects| < |pieces| ==> !accepts(pieces[|objects|]))
  }

  lemma {:induction false} AcceptedExact(pieces: seq<string>, accepts: string -> bool)
    ensures UpToRefused(Accepted(pieces, accepts), pieces, accepts)
  {
    if pieces != [] && accepts(pieces[0]) {
      AcceptedExact(pieces[1..], accepts);
      assert pieces == [pieces[0]] + pieces[1..];
    }
  }

  /** The loops inside, over white space and over one candidate. */
  method SkipWhite(text: string, from: nat) returns (i: nat)
    requires from <= |text|
    ensures i == SkipSpace(text, from)
  {
    i := from;
    while i < |text| && IsSpace(text[i])
      invariant i <= |text| && SkipSpace(text, from) == SkipSpace(text, i)
    {
      i := i + 1;
    }
  }

  method Candidate(text: string, start: nat) returns (i: nat, closed: bool)
    requires start < |text|
    ensures End(text, start, START) == if closed then i else -1
    ensures !closed ==> i == |text|
  {
    i, closed := start, false;
    var depth, inString, escape := 0, false, false;
    while i < |text|
      invariant i <= |text|
      invariant End(text, start, START) == End(text, i, Mode(depth, inString, escape))
    {
      var c := text[i];
      ghost var mode := Mode(depth, inString, escape);
      if inString {
        if escape { escape := false; }
        else if c == '\\' { escape := true; }
        else if c == '"' { inString := false; }
      } else if c == '"' { inString := true; }
      else if c == '{' { depth := depth + 1; }
      else if c == '}' {
        depth := depth - 1;
        if depth == 0 {
          i := i + 1;
          closed := true;
          return;
        }
      }
      assert !Closes(mode, c) && Next(mode, c) == Mode(depth, inString, escape);
      i := i + 1;
    }
  }

  lemma NoPiece(text: string, i: nat)
    requires i <= |text| && SkipSpace(text, i) == |text|
    ensures Pieces(text, i) == []
  {
  }

  lemma FirstPiece(text: string, i: nat)
    requires i <= |text| && SkipSpace(text, i) < |text|
    ensures var start := SkipSpace(text, i);
            var end := End(text, start, START);
            Pieces(text, i) == if end == -1 then [] else [text[start..end]] + Pieces(text, end)
  {
  }

  lemma NothingLeft(text: string, accepts: string -> bool)
    ensures Pieces(text, |text|) == [] && Accepted([], accepts) == []
  {
  }

  lemma FirstAccepted(piece: string, left: seq<string>, accepts: string -> bool)
    ensures Accepted([piece] + left, accepts) == if accepts(piece) then [piece] + Accepted(left, accepts) else []
  {
    assert ([piece] + left)[1..] == left;
  }

  lemma Regroup(objects: seq<string>, piece: string, left: seq<string>)
    ensures objects + ([piece] + left) == objects + [piece] + left
    ensures objects != objects + ([piece] + left)
  {
    assert |objects| < |objects + ([piece] + left)|;
  }

  /** The generator, run to its end or to the throw. */
  method JsonObjects(text: string, accepts: string -> bool) returns (objects: seq<string>, threw: bool)
    ensures objects == Accepted(Pieces(text, 0), accepts) && UpToRefused(objects, Pieces(text, 0), accepts)
    ensures threw <==> objects != Pieces(text, 0)
  {
    hide SkipSpace, End, Pieces, Accepted, UpToRefused;
    AcceptedExact(Pieces(text, 0), accepts);
    NothingLeft(text, accepts);
    objects := [];
    threw := false;
    var i := 0;
    while i < |text|
      invariant 0 <= i <= |text|
      invariant Pieces(text, 0) == objects + Pieces(text, i)
      invariant Accepted(Pieces(text, 0), accepts) == objects + Accepted(Pieces(text, i), accepts)
      decreases |text| - i
    {
      ghost var from := i;
      i := SkipWhite(text, i);
      if i >= |text| {
        NoPiece(text, from);
        return;
      }
      var start := i;
      var closed;
      i, closed := Candidate(text, start);
      FirstPiece(text, from);
      if closed {
        var piece := text[start..i];
        FirstAccepted(piece, Pieces(text, i), accepts);
        Regroup(objects, piece, Pieces(text, i));
        Regroup(objects, piece, Accepted(Pieces(text, i), accepts));
        if !accepts(piece) {
          threw := true;
          return;
        }
        objects := objects + [piece];
      }
    }
  }
}
