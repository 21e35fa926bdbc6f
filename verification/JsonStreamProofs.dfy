/** The scanner against the grammar. */
module JsonStreamProofs {
  import opened JsonGrammar
  import opened JsonStream

  /** Reading `s` leads from `m` to `n` without closing the candidate. */
  ghost predicate Leads(m: Mode, s: string, n: Mode)
    decreases |s|
  {
    if s == "" then m == n else !Closes(m, s[0]) && Leads(Next(m, s[0]), s[1..], n)
  }

  lemma {:induction false} LeadsConcat(m: Mode, a: string, n: Mode, b: string, o: Mode)
    requires Leads(m, a, n) && Leads(n, b, o)
    ensures Leads(m, a + b, o)
    decreases |a|
  {
    if a == "" {
      assert a + b == b;
    } else {
      LeadsConcat(Next(m, a[0]), a[1..], n, b, o);
      assert (a + b)[1..] == a[1..] + b;
    }
  }

  /** Outside strings, at this depth. */
  function Outside(depth: int): Mode { Mode(depth, false, false) }

  function Inside(depth: int): Mode { Mode(depth, true, false) }

  /** Text without quotes and braces does not move the scanner. */
  lemma {:induction false} NeutralLeads(s: string, depth: int)
    requires forall i :: 0 <= i < |s| ==> s[i] != '"' && s[i] != '{' && s[i] != '}'
    ensures Leads(Outside(depth), s, Outside(depth))
  {
    if s != "" { NeutralLeads(s[1..], depth); }
  }

  lemma OneLeads(m: Mode, c: char)
    requires !Closes(m, c)
    ensures Leads(m, [c], Next(m, c))
  {
    assert Leads(Next(m, c), [c][1..], Next(m, c));
  }

  /** Four hexadecimal digits inside a string are plain characters. */
  lemma {:induction false} HexLeads(hex: string, depth: int)
    requires forall i :: 0 <= i < |hex| ==> IsHex(hex[i])
    ensures Leads(Inside(depth), hex, Inside(depth))
  {
    if hex != "" { HexLeads(hex[1..], depth); }
  }

  lemma CharLeads(c: StringChar, depth: int)
    requires ValidChar(c)
    ensures Leads(Inside(depth), CharText(c), Inside(depth))
  {
    match c
    case Plain(x) => OneLeads(Inside(depth), x);
    case Escape(x) =>
      OneLeads(Inside(depth), '\\');
      OneLeads(Mode(depth, true, true), x);
      LeadsConcat(Inside(depth), ['\\'], Mode(depth, true, true), [x], Inside(depth));
      assert ['\\'] + [x] == CharText(c);
    case Unicode(hex) =>
      OneLeads(Inside(depth), '\\');
      OneLeads(Mode(depth, true, true), 'u');
      LeadsConcat(Inside(depth), ['\\'], Mode(depth, true, true), ['u'], Inside(depth));
      HexLeads(hex, depth);
      LeadsConcat(Inside(depth), ['\\'] + ['u'], Inside(depth), hex, Inside(depth));
      assert ['\\'] + ['u'] + hex == CharText(c);
  }

  lemma {:induction false} CharsLead(cs: seq<StringChar>, depth: int)
    requires ValidChars(cs)
    ensures Leads(Inside(depth), CharsText(cs), Inside(depth))
  {
    if cs != [] {
      CharLeads(cs[0], depth);
      CharsLead(cs[1..], depth);
      LeadsConcat(Inside(depth), CharText(cs[0]), Inside(depth), CharsText(cs[1..]), Inside(depth));
    }
  }

  lemma QuotedLeads(cs: seq<StringChar>, depth: int)
    requires ValidChars(cs)
    ensures Leads(Outside(depth), Quoted(cs), Outside(depth))
  {
    OneLeads(Outside(depth), '"');
    CharsLead(cs, depth);
    OneLeads(Inside(depth), '"');
    LeadsConcat(Outside(depth), "\"", Inside(depth), CharsText(cs), Inside(depth));
    LeadsConcat(Outside(depth), "\"" + CharsText(cs), Inside(depth), "\"", Outside(depth));
  }

  lemma DigitsLead(digits: string, depth: int)
    requires Digits(digits)
    ensures Leads(Outside(depth), digits, Outside(depth))
  {
    assert forall i :: 0 <= i < |digits| ==> IsDigit(digits[i]);
    NeutralLeads(digits, depth);
  }

  lemma NumberLeads(n: Number, depth: int)
    requires ValidNumber(n)
    ensures Leads(Outside(depth), NumberText(n), Outside(depth))
  {
    var m := Outside(depth);
    var sign := if n.minus then "-" else "";
    var fraction := if n.fraction.Some? then "." + n.fraction.value else "";
    var exponent :=
      if n.exponent.Some? then [n.exponent.value.mark] + n.exponent.value.sign + n.exponent.value.digits else "";
    NeutralLeads(sign, depth);
    DigitsLead(n.whole, depth);
    if n.fraction.Some? { DotLeads(n.fraction.value, depth); } else { NeutralLeads("", depth); }
    if n.exponent.Some? { ExponentLeads(n.exponent.value, depth); } else { NeutralLeads("", depth); }
    hide Leads, Digits;
    LeadsConcat(m, sign, m, n.whole, m);
    LeadsConcat(m, sign + n.whole, m, fraction, m);
    LeadsConcat(m, sign + n.whole + fraction, m, exponent, m);
  }

  lemma DotLeads(digits: string, depth: int)
    requires Digits(digits)
    ensures Leads(Outside(depth), "." + digits, Outside(depth))
  {
    NeutralLeads(".", depth);
    DigitsLead(digits, depth);
    LeadsConcat(Outside(depth), ".", Outside(depth), digits, Outside(depth));
  }

  lemma ExponentLeads(e: Exponent, depth: int)
    requires (e.mark == 'e' || e.mark == 'E') && (e.sign == "" || e.sign == "+" || e.sign == "-") && Digits(e.digits)
    ensures Leads(Outside(depth), [e.mark] + e.sign + e.digits, Outside(depth))
  {
    NeutralLeads([e.mark], depth);
    NeutralLeads(e.sign, depth);
    DigitsLead(e.digits, depth);
    hide Leads, Digits;
    LeadsConcat(Outside(depth), [e.mark], Outside(depth), e.sign, Outside(depth));
    LeadsConcat(Outside(depth), [e.mark] + e.sign, Outside(depth), e.digits, Outside(depth));
  }

  /** Any value inside an open object brings the scanner back to where it was. */
  lemma {:induction false} ValueLeads(v: Value, depth: int)
    requires Valid(v) && depth >= 1
    ensures Leads(Outside(depth), ValueText(v), Outside(depth))
    decreases v, 1
  {
    match v
    case Null => NeutralLeads("null", depth);
    case True => NeutralLeads("true", depth);
    case False => NeutralLeads("false", depth);
    case Numeric(number) => NumberLeads(number, depth);
    case Text(chars) => QuotedLeads(chars, depth);
    case Array(space, items) =>
      NeutralLeads("[" + space, depth);
      ItemsLead(items, depth);
      NeutralLeads("]", depth);
      LeadsConcat(Outside(depth), "[" + space, Outside(depth), ItemsText(items), Outside(depth));
      LeadsConcat(Outside(depth), "[" + space + ItemsText(items), Outside(depth), "]", Outside(depth));
    case Object(space, members) =>
      OpenLeads(v, depth);
      OneLeads(Outside(depth + 1), '}');
      LeadsConcat(Outside(depth), "{" + space + MembersText(members), Outside(depth + 1), "}", Outside(depth));
  }

  /** An object, up to its closing brace. */
  lemma {:induction false} OpenLeads(v: Value, depth: int)
    requires Valid(v) && v.Object? && depth >= 0
    ensures Leads(Outside(depth), "{" + v.space + MembersText(v.members), Outside(depth + 1))
    decreases v, 0
  {
    OneLeads(Outside(depth), '{');
    NeutralLeads(v.space, depth + 1);
    MembersLead(v.members, depth + 1);
    LeadsConcat(Outside(depth), "{", Outside(depth + 1), v.space, Outside(depth + 1));
    LeadsConcat(Outside(depth), "{" + v.space, Outside(depth + 1), MembersText(v.members), Outside(depth + 1));
  }

  lemma {:induction false} ItemLeads(i: Item, depth: int)
    requires ValidItem(i) && depth >= 1
    ensures Leads(Outside(depth), ItemText(i), Outside(depth))
    decreases i, 2
  {
    NeutralLeads(i.before, depth);
    ValueLeads(i.value, depth);
    NeutralLeads(i.after, depth);
    LeadsConcat(Outside(depth), i.before, Outside(depth), ValueText(i.value), Outside(depth));
    LeadsConcat(Outside(depth), i.before + ValueText(i.value), Outside(depth), i.after, Outside(depth));
  }

  lemma {:induction false} ItemsLead(items: seq<Item>, depth: int)
    requires ValidItems(items) && depth >= 1
    ensures Leads(Outside(depth), ItemsText(items), Outside(depth))
    decreases items, 0
  {
    if items != [] {
      ItemLeads(items[0], depth);
      ItemsLead(items[1..], depth);
      NeutralLeads(",", depth);
      LeadsConcat(Outside(depth), ItemText(items[0]), Outside(depth), ",", Outside(depth));
      LeadsConcat(Outside(depth), ItemText(items[0]) + ",", Outside(depth), ItemsText(items[1..]), Outside(depth));
    }
  }

  lemma {:induction false} MemberLeads(m: Member, depth: int)
    requires AllJsonSpace(m.before) && ValidChars(m.name) && AllJsonSpace(m.colon) && ValidItem(m.item) && depth >= 1
    ensures Leads(Outside(depth), MemberText(m), Outside(depth))
    decreases m, 3
  {
    var o := Outside(depth);
    NeutralLeads(m.before, depth);
    QuotedLeads(m.name, depth);
    NeutralLeads(m.colon, depth);
    NeutralLeads(":", depth);
    ItemLeads(m.item, depth);
    LeadsConcat(o, m.before, o, Quoted(m.name), o);
    LeadsConcat(o, m.before + Quoted(m.name), o, m.colon, o);
    LeadsConcat(o, m.before + Quoted(m.name) + m.colon, o, ":", o);
    LeadsConcat(o, m.before + Quoted(m.name) + m.colon + ":", o, ItemText(m.item), o);
  }

  lemma {:induction false} MembersLead(members: seq<Member>, depth: int)
    requires ValidMembers(members) && depth >= 1
    ensures Leads(Outside(depth), MembersText(members), Outside(depth))
    decreases members, 0
  {
    if members != [] {
      MemberLeads(members[0], depth);
      MembersLead(members[1..], depth);
      NeutralLeads(",", depth);
      LeadsConcat(Outside(depth), MemberText(members[0]), Outside(depth), ",", Outside(depth));
      LeadsConcat(Outside(depth), MemberText(members[0]) + ",", Outside(depth),
                    MembersText(members[1..]), Outside(depth));
    }
  }

  // ---- positions ----

  /** The scan passes over a stretch that does not close. */
  lemma {:induction false} EndBehind(a: string, s: string, b: string, m: Mode, n: Mode)
    requires Leads(m, s, n)
    ensures End(a + s + b, |a|, m) == End(a + s + b, |a| + |s|, n)
    decreases |s|
  {
    if s != "" {
      var text := a + s + b;
      assert a + [s[0]] + s[1..] + b == text;
      assert text[|a|] == s[0];
      EndBehind(a + [s[0]], s[1..], b, Next(m, s[0]), n);
    }
  }

  /** An object's text ends exactly at its last brace, whatever follows. */
  lemma ObjectEnds(v: Value, b: string)
    requires Valid(v) && v.Object?
    ensures End(ValueText(v) + b, 0, START) == |ValueText(v)|
  {
    var open := "{" + v.space + MembersText(v.members);
    OpenLeads(v, 0);
    EndBehind("", open, "}" + b, START, Outside(1));
    assert "" + open + ("}" + b) == ValueText(v) + b;
  }

  lemma {:induction false} EndShifts(a: string, b: string, i: nat, m: Mode)
    requires i <= |b|
    ensures End(a + b, |a| + i, m) == if End(b, i, m) == -1 then -1 else |a| + End(b, i, m)
    decreases |b| - i
  {
    if i < |b| && !Closes(m, b[i]) { EndShifts(a, b, i + 1, Next(m, b[i])); }
  }

  lemma {:induction false} SkipShifts(a: string, b: string, i: nat)
    requires i <= |b|
    ensures SkipSpace(a + b, |a| + i) == |a| + SkipSpace(b, i)
    decreases |b| - i
  {
    if i < |b| && IsSpace(b[i]) { SkipShifts(a, b, i + 1); }
  }

  /** What is found in a text depends only on what is left of it. */
  lemma {:induction false} PiecesShift(a: string, b: string, i: nat)
    requires i <= |b|
    ensures Pieces(a + b, |a| + i) == Pieces(b, i)
    decreases |b| - i
  {
    hide SkipSpace, End;
    SkipShifts(a, b, i);
    var start := SkipSpace(b, i);
    if start < |b| {
      EndShifts(a, b, start, START);
      var end := End(b, start, START);
      if end != -1 {
        assert (a + b)[|a| + start..|a| + end] == b[start..end];
        PiecesShift(a, b, end);
      }
    }
  }

  lemma {:induction false} SkipAll(space: string, b: string, i: nat)
    requires AllSpace(space) && i <= |space| && (b == "" || !IsSpace(b[0]))
    ensures SkipSpace(space + b, i) == |space|
    decreases |space| - i
  {
    if i < |space| { SkipAll(space, b, i + 1); }
  }

  /** White space and one object in front of anything add one piece. */
  lemma PiecesOfChunk(space: string, v: Value, rest: string)
    requires AllSpace(space) && Valid(v) && v.Object?
    ensures Pieces(space + ValueText(v) + rest, 0) == [ValueText(v)] + Pieces(rest, 0)
  {
    var body := ValueText(v);
    ObjectStarts(v);
    ObjectEnds(v, rest);
    hide ValueText, Valid, SkipSpace, End, AllSpace;
    ChunkPieces(space, body, rest);
  }

  lemma ObjectStarts(v: Value)
    requires v.Object?
    ensures ValueText(v) != "" && !IsSpace(ValueText(v)[0])
  {
  }

  lemma ChunkPieces(space: string, body: string, rest: string)
    requires AllSpace(space) && body != "" && !IsSpace(body[0]) && End(body + rest, 0, START) == |body|
    ensures Pieces(space + body + rest, 0) == [body] + Pieces(rest, 0)
  {
    hide SkipSpace, End, AllSpace, Pieces;
    var text := space + body + rest;
    assert text == space + (body + rest);
    SkipAll(space, body + rest, 0);
    EndShifts(space, body + rest, 0, START);
    FirstPiece(text, 0);
    assert text[|space|..|space| + |body|] == body;
    PiecesShift(space + body, rest, 0);
  }

  /** A stream: each object behind some white space. */
  datatype Chunk = Chunk(space: string, body: Value)

  ghost predicate ValidStream(chunks: seq<Chunk>) {
    forall i :: 0 <= i < |chunks| ==> AllSpace(chunks[i].space) && Valid(chunks[i].body) && chunks[i].body.Object?
  }

  function StreamText(chunks: seq<Chunk>): string {
    if chunks == [] then "" else chunks[0].space + ValueText(chunks[0].body) + StreamText(chunks[1..])
  }

  function ObjectTexts(chunks: seq<Chunk>): (texts: seq<string>)
    ensures |texts| == |chunks|
  {
    if chunks == [] then [] else [ValueText(chunks[0].body)] + ObjectTexts(chunks[1..])
  }

  lemma {:induction false} PiecesOfStream(chunks: seq<Chunk>, tail: string)
    requires ValidStream(chunks)
    ensures Pieces(StreamText(chunks) + tail, 0) == ObjectTexts(chunks) + Pieces(tail, 0)
  {
    hide Valid, ValueText, AllSpace, Pieces;
    if chunks == [] {
      assert StreamText(chunks) + tail == tail;
    } else {
      PiecesOfStream(chunks[1..], tail);
      PiecesOfChunk(chunks[0].space, chunks[0].body, StreamText(chunks[1..]) + tail);
      assert StreamText(chunks) + tail
          == chunks[0].space + ValueText(chunks[0].body) + (StreamText(chunks[1..]) + tail);
    }
  }

  /** A text cut short of the end of its only candidate never closes. */
  lemma {:induction false} CutNeverEnds(text: string, k: nat, i: nat, m: Mode)
    requires i <= k < |text| && End(text, i, m) == |text|
    ensures End(text[..k], i, m) == -1
    decreases k - i
  {
    if i < k { CutNeverEnds(text, k, i + 1, Next(m, text[i])); }
  }

  /** White space, or white space and an object cut short, gives no piece. */
  lemma NothingInTail(space: string, v: Value, k: nat)
    requires AllSpace(space) && Valid(v) && v.Object? && k < |ValueText(v)|
    ensures Pieces(space + ValueText(v)[..k], 0) == []
  {
    var text := ValueText(v);
    var cut := text[..k];
    SkipAll(space, cut, 0);
    if k > 0 {
      ObjectEnds(v, "");
      assert text + "" == text;
      CutNeverEnds(text, k, 0, START);
      EndShifts(space, cut, 0, START);
    }
  }

  lemma {:induction false} AllAccepted(pieces: seq<string>, accepts: string -> bool)
    requires forall i :: 0 <= i < |pieces| ==> accepts(pieces[i])
    ensures Accepted(pieces, accepts) == pieces
  {
    if pieces != [] { AllAccepted(pieces[1..], accepts); }
  }

  /** The parser takes every object of this stream. */
  ghost predicate AllParse(chunks: seq<Chunk>, accepts: string -> bool) {
    forall i :: 0 <= i < |chunks| ==> accepts(ValueText(chunks[i].body))
  }

  lemma {:induction false} TextsAreObjects(chunks: seq<Chunk>, accepts: string -> bool)
    requires AllParse(chunks, accepts)
    ensures forall i :: 0 <= i < |chunks| ==> accepts(ObjectTexts(chunks)[i])
  {
    if chunks != [] { TextsAreObjects(chunks[1..], accepts); }
  }

  /** Any list of objects, however spelled and however separated by white space, and behind it white
      space and possibly one object cut short: the scanner cuts out exactly the objects, in order; and
      with a parser that takes them it yields them all and never throws. */
  lemma StreamIsSplit(chunks: seq<Chunk>, space: string, cut: Value, k: nat, accepts: string -> bool)
    requires ValidStream(chunks) && AllSpace(space)
    requires Valid(cut) && cut.Object? && k < |ValueText(cut)|
    ensures var text := StreamText(chunks) + (space + ValueText(cut)[..k]);
            && Pieces(text, 0) == ObjectTexts(chunks)
            && (AllParse(chunks, accepts) ==> Accepted(Pieces(text, 0), accepts) == ObjectTexts(chunks))
  {
    PiecesOfStream(chunks, space + ValueText(cut)[..k]);
    NothingInTail(space, cut, k);
    if AllParse(chunks, accepts) {
      TextsAreObjects(chunks, accepts);
      AllAccepted(ObjectTexts(chunks), accepts);
    }
  }

  // ---- every text ----

  function Tile(gaps: seq<string>, pieces: seq<string>): string
    requires |gaps| == |pieces|
  {
    if gaps == [] then "" else gaps[0] + pieces[0] + Tile(gaps[1..], pieces[1..])
  }

  /** A piece is one candidate: it closes at its last character and nowhere before. */
  ghost predicate IsCandidate(piece: string) {
    piece != "" && !IsSpace(piece[0]) && End(piece, 0, START) == |piece|
  }

  ghost predicate Tiling(text: string, pieces: seq<string>, gaps: seq<string>, rest: string) {
    && |gaps| == |pieces|
    && (forall i :: 0 <= i < |gaps| ==> AllSpace(gaps[i]) && IsCandidate(pieces[i]))
    && text == Tile(gaps, pieces) + rest
    && Pieces(rest, 0) == []
  }

  lemma {:induction false} SkipIsSpace(text: string, i: nat)
    requires i <= |text|
    ensures AllSpace(text[i..SkipSpace(text, i)])
    ensures SkipSpace(text, i) < |text| ==> !IsSpace(text[SkipSpace(text, i)])
    decreases |text| - i
  {
    if i < |text| && IsSpace(text[i]) {
      SkipIsSpace(text, i + 1);
      assert text[i..SkipSpace(text, i)] == [text[i]] + text[i + 1..SkipSpace(text, i + 1)];
    }
  }

  /** Whether a candidate closes at `end` does not depend on what follows. */
  lemma {:induction false} EndIsLocal(text: string, i: nat, m: Mode, end: nat)
    requires i <= |text| && End(text, i, m) == end
    ensures End(text[..end], i, m) == end
    decreases |text| - i
  {
    if !Closes(m, text[i]) {
      EndIsLocal(text, i + 1, Next(m, text[i]), end);
    }
  }

  /** The first piece of a text, if there is one, and what the rest gives. */
  lemma LeadingPiece(text: string, start: nat, end: nat)
    requires start == SkipSpace(text, 0) < |text| && End(text, start, START) == end
    ensures AllSpace(text[..start]) && IsCandidate(text[start..end])
    ensures Pieces(text, 0) == [text[start..end]] + Pieces(text[end..], 0)
  {
    CutPiece(text, start, end);
    hide SkipSpace, End;
    assert text == text[..end] + text[end..];
    PiecesShift(text[..end], text[end..], 0);
  }

  /** The piece by itself is a candidate. */
  lemma CutPiece(text: string, start: nat, end: nat)
    requires start == SkipSpace(text, 0) < |text| && End(text, start, START) == end
    ensures AllSpace(text[..start]) && IsCandidate(text[start..end])
  {
    SkipIsSpace(text, 0);
    EndIsLocal(text, start, START, end);
    hide SkipSpace, End;
    var gap, piece := text[..start], text[start..end];
    assert text[0..start] == gap && text[..end] == gap + piece;
    EndShifts(gap, piece, 0, START);
  }

  lemma TileOnce(text: string, gap: string, piece: string, tail: string, pieces: seq<string>, gaps: seq<string>,
                 rest: string)
    requires AllSpace(gap) && IsCandidate(piece) && text == gap + piece + tail && Tiling(tail, pieces, gaps, rest)
    ensures Tiling(text, [piece] + pieces, [gap] + gaps, rest)
  {
    assert ([gap] + gaps)[1..] == gaps && ([piece] + pieces)[1..] == pieces;
    assert text == gap + piece + Tile(gaps, pieces) + rest;
  }

  lemma NothingTiles(text: string, start: nat)
    requires start == SkipSpace(text, 0) && (start < |text| ==> End(text, start, START) == -1)
    ensures Pieces(text, 0) == [] && Tiling(text, [], [], text)
  {
  }

  /** On every text the pieces tile it: only white space lies between them, each closes exactly at
      its own end, and what is left over never closes. */
  lemma {:induction false} PiecesTile(text: string) returns (gaps: seq<string>, rest: string)
    ensures Tiling(text, Pieces(text, 0), gaps, rest)
    decreases |text|
  {
    hide SkipSpace, End, Pieces, IsCandidate, Tiling, AllSpace;
    var start := SkipSpace(text, 0);
    var end := if start == |text| then -1 else End(text, start, START);
    if end == -1 {
      NothingTiles(text, start);
      return [], text;
    }
    LeadingPiece(text, start, end);
    gaps, rest := PiecesTile(text[end..]);
    assert text == text[..start] + text[start..end] + text[end..];
    TileOnce(text, text[..start], text[start..end], text[end..], Pieces(text[end..], 0), gaps, rest);
    gaps := [text[..start]] + gaps;
  }
}
