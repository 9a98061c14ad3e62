/** The nesting scanner that runs before JSON parsing, and the bound on encoded frames. */
module Transport {
  import opened Basics

  const MAX_DEPTH := 64
  const MAX_FRAME := 65536

  // ---------------------------------------------------------------- the scanner

  datatype Scan = Scanning(depth: int, quoted: bool, escaped: bool) | TooDeep

  function Step(s: Scan, c: char): Scan {
    if s.TooDeep? then s
    else if s.quoted then
      if s.escaped then s.(escaped := false)
      else if c == '\\' then s.(escaped := true)
      else if c == '"' then s.(quoted := false)
      else s
    else if c == '"' then s.(quoted := true)
    else if c == '[' || c == '{' then if s.depth + 1 > MAX_DEPTH then TooDeep else s.(depth := s.depth + 1)
    else if c == ']' || c == '}' then s.(depth := s.depth - 1)
    else s
  }

  function Run(s: Scan, text: string): Scan
    decreases |text|
  {
    if text == "" then s else Run(Step(s, text[0]), text[1..])
  }

  function Outside(depth: int): Scan {
    Scanning(depth, false, false)
  }

  /** The scan of `decode_frame`: false where it raises. */
  method ScanText(text: string) returns (ok: bool, ghost final: Scan)
    ensures final == Run(Outside(0), text)
    ensures ok <==> !final.TooDeep?
  {
    var depth, quoted, escaped := 0, false, false;
    var i := 0;
    assert text[0..] == text;
    while i < |text|
      invariant 0 <= i <= |text|
      invariant Run(Scanning(depth, quoted, escaped), text[i..]) == Run(Outside(0), text)
    {
      var c := text[i];
      assert text[i..][0] == c && text[i..][1..] == text[i + 1..];
      if quoted {
        if escaped {
          escaped := false;
        } else if c == '\\' {
          escaped := true;
        } else if c == '"' {
          quoted := false;
        }
      } else if c == '"' {
        quoted := true;
      } else if c == '[' || c == '{' {
        depth := depth + 1;
        if depth > MAX_DEPTH {
          TooDeepStays(text[i + 1..]);
          return false, TooDeep;
        }
      } else if c == ']' || c == '}' {
        depth := depth - 1;
      }
      i := i + 1;
    }
    ok, final := true, Scanning(depth, quoted, escaped);
  }

  lemma {:induction false} TooDeepStays(text: string)
    ensures Run(TooDeep, text) == TooDeep
    decreases |text|
  {
    if text != "" {
      TooDeepStays(text[1..]);
    }
  }

  lemma {:induction false} RunConcat(s: Scan, a: string, b: string)
    ensures Run(s, a + b) == Run(Run(s, a), b)
    decreases |a|
  {
    if a == "" {
      assert a + b == b;
    } else {
      assert (a + b)[1..] == a[1..] + b;
      RunConcat(Step(s, a[0]), a[1..], b);
    }
  }

  // ---------------------------------------------------------------- JSON texts

  /** A character of a string: itself, or a backslash with what it escapes (for `\u` the four
      hexadecimal digits follow as plain characters). */
  datatype Piece = Plain(c: char) | Escape(c: char)

  /** Derivations of sections 2 and 7 of RFC 8259, with their insignificant whitespace. */
  datatype Json =
    | Literal(text: string)                  // a number, true, false or null
    | Text(pieces: seq<Piece>)
    | Array(items: Items)
    | Object(members: Members)

  datatype Items = NoItems(ws: string) | LastItem(value: Spaced) | MoreItems(value: Spaced, rest: Items)

  datatype Members = NoMembers(ws: string) | LastMember(name: Name, value: Spaced) | MoreMembers(name: Name, value: Spaced, rest: Members)

  datatype Spaced = Spaced(before: string, json: Json, after: string)

  datatype Name = Name(before: string, pieces: seq<Piece>, after: string)

  predicate Blank(s: string) {
    forall i | 0 <= i < |s| :: s[i] == ' ' || s[i] == '\t' || s[i] == '\n' || s[i] == '\r'
  }

  predicate Neutral(c: char) {
    c != '"' && c != '[' && c != ']' && c != '{' && c != '}'
  }

  predicate PiecesOk(pieces: seq<Piece>) {
    forall i | 0 <= i < |pieces| :: pieces[i].Plain? ==> pieces[i].c != '"' && pieces[i].c != '\\'
  }

  predicate JsonOk(j: Json) {
    match j
    case Literal(text) => text != "" && forall i | 0 <= i < |text| :: Neutral(text[i])
    case Text(pieces) => PiecesOk(pieces)
    case Array(items) => ItemsOk(items)
    case Object(members) => MembersOk(members)
  }

  predicate SpacedOk(s: Spaced) {
    Blank(s.before) && JsonOk(s.json) && Blank(s.after)
  }

  predicate NameOk(n: Name) {
    Blank(n.before) && PiecesOk(n.pieces) && Blank(n.after)
  }

  predicate ItemsOk(items: Items) {
    match items
    case NoItems(ws) => Blank(ws)
    case LastItem(value) => SpacedOk(value)
    case MoreItems(value, rest) => SpacedOk(value) && !rest.NoItems? && ItemsOk(rest)
  }

  predicate MembersOk(members: Members) {
    match members
    case NoMembers(ws) => Blank(ws)
    case LastMember(name, value) => NameOk(name) && SpacedOk(value)
    case MoreMembers(name, value, rest) => NameOk(name) && SpacedOk(value) && !rest.NoMembers? && MembersOk(rest)
  }

  function PiecesText(pieces: seq<Piece>): string {
    if pieces == [] then ""
    else (match pieces[0] case Plain(c) => [c] case Escape(c) => ['\\', c]) + PiecesText(pieces[1..])
  }

  function StringText(pieces: seq<Piece>): string {
    "\"" + (PiecesText(pieces) + "\"")
  }

  function TextOf(j: Json): string {
    match j
    case Literal(text) => text
    case Text(pieces) => StringText(pieces)
    case Array(items) => "[" + (ItemsText(items) + "]")
    case Object(members) => "{" + (MembersText(members) + "}")
  }

  function SpacedText(s: Spaced): string {
    s.before + (TextOf(s.json) + s.after)
  }

  function NameText(n: Name): string {
    n.before + (StringText(n.pieces) + n.after)
  }

  function ItemsText(items: Items): string {
    match items
    case NoItems(ws) => ws
    case LastItem(value) => SpacedText(value)
    case MoreItems(value, rest) => SpacedText(value) + ("," + ItemsText(rest))
  }

  function MembersText(members: Members): string {
    match members
    case NoMembers(ws) => ws
    case LastMember(name, value) => NameText(name) + (":" + SpacedText(value))
    case MoreMembers(name, value, rest) => NameText(name) + (":" + (SpacedText(value) + ("," + MembersText(rest))))
  }

  function Max(a: nat, b: nat): nat {
    if a < b then b else a
  }

  /** Containers around the innermost value. */
  function Nesting(j: Json): nat {
    match j
    case Literal(_) => 0
    case Text(_) => 0
    case Array(items) => 1 + ItemsNesting(items)
    case Object(members) => 1 + MembersNesting(members)
  }

  function ItemsNesting(items: Items): nat {
    match items
    case NoItems(_) => 0
    case LastItem(value) => Nesting(value.json)
    case MoreItems(value, rest) => Max(Nesting(value.json), ItemsNesting(rest))
  }

  function MembersNesting(members: Members): nat {
    match members
    case NoMembers(_) => 0
    case LastMember(_, value) => Nesting(value.json)
    case MoreMembers(_, value, rest) => Max(Nesting(value.json), MembersNesting(rest))
  }

  // ---------------------------------------------------------------- the scanner on JSON texts

  /** What scanning something nested `n` deep does at depth `d`. */
  function Effect(d: nat, n: nat): Scan {
    if d + n <= MAX_DEPTH then Outside(d) else TooDeep
  }

  lemma {:induction false} NeutralKeeps(d: int, text: string)
    requires forall i | 0 <= i < |text| :: Neutral(text[i])
    ensures Run(Outside(d), text) == Outside(d)
    decreases |text|
  {
    if text != "" {
      assert forall i | 0 <= i < |text[1..]| :: text[1..][i] == text[i + 1];
      NeutralKeeps(d, text[1..]);
    }
  }

  lemma {:induction false} PiecesKeep(d: int, pieces: seq<Piece>)
    requires PiecesOk(pieces)
    ensures Run(Scanning(d, true, false), PiecesText(pieces)) == Scanning(d, true, false)
    decreases |pieces|
  {
    if pieces != [] {
      var head := match pieces[0] case Plain(c) => [c] case Escape(c) => ['\\', c];
      PiecesKeep(d, pieces[1..]);
      RunConcat(Scanning(d, true, false), head, PiecesText(pieces[1..]));
      if pieces[0].Escape? {
        assert head[1..] == [pieces[0].c] && [pieces[0].c][1..] == "";
        assert Run(Scanning(d, true, true), [pieces[0].c]) == Scanning(d, true, false);
      } else {
        assert head[1..] == "";
      }
    }
  }

  lemma OneStep(s: Scan, c: char)
    ensures Run(s, [c]) == Step(s, c)
  {
  }

  /** No bracket inside a string is counted, also not after an escaped quote. */
  lemma StringKeeps(d: int, pieces: seq<Piece>)
    requires PiecesOk(pieces)
    ensures Run(Outside(d), StringText(pieces)) == Outside(d)
  {
    RunConcat(Outside(d), "\"", PiecesText(pieces) + "\"");
    OneStep(Outside(d), '"');
    RunConcat(Scanning(d, true, false), PiecesText(pieces), "\"");
    PiecesKeep(d, pieces);
    OneStep(Scanning(d, true, false), '"');
  }

  /** A text whose parts have an effect each. */
  lemma Sequenced(d: nat, a: string, m: nat, b: string, n: nat)
    requires Run(Outside(d), a) == Effect(d, m) && Run(Outside(d), b) == Effect(d, n)
    ensures Run(Outside(d), a + b) == Effect(d, Max(m, n))
  {
    RunConcat(Outside(d), a, b);
    TooDeepStays(b);
    hide Run;
  }

  lemma Harmless(d: nat, text: string)
    requires d <= MAX_DEPTH && (Blank(text) || text == "," || text == ":")
    ensures Run(Outside(d), text) == Effect(d, 0)
  {
  }

  lemma Bracketed(d: nat, open: char, inner: string, n: nat, close: char)
    requires d <= MAX_DEPTH && (open == '[' || open == '{') && (close == ']' || close == '}')
    requires d + 1 <= MAX_DEPTH ==> Run(Outside(d + 1), inner) == Effect(d + 1, n)
    ensures Run(Outside(d), [open] + (inner + [close])) == Effect(d, 1 + n)
  {
    RunConcat(Outside(d), [open], inner + [close]);
    OneStep(Outside(d), open);
    if d + 1 <= MAX_DEPTH {
      RunConcat(Outside(d + 1), inner, [close]);
      OneStep(Outside(d + 1), close);
      TooDeepStays([close]);
    } else {
      TooDeepStays(inner + [close]);
    }
    hide Run;
  }

  lemma {:induction false} ScansJson(d: nat, j: Json)
    requires JsonOk(j) && d <= MAX_DEPTH
    ensures Run(Outside(d), TextOf(j)) == Effect(d, Nesting(j))
    decreases j
  {
    hide Run, Step, Blank, Neutral;
    match j
    case Literal(text) => NeutralKeeps(d, text);
    case Text(pieces) => StringKeeps(d, pieces);
    case Array(items) =>
      if d + 1 <= MAX_DEPTH { ScansItems(d + 1, items); }
      Bracketed(d, '[', ItemsText(items), ItemsNesting(items), ']');
    case Object(members) =>
      if d + 1 <= MAX_DEPTH { ScansMembers(d + 1, members); }
      Bracketed(d, '{', MembersText(members), MembersNesting(members), '}');
  }

  lemma {:induction false} ScansSpaced(d: nat, s: Spaced)
    requires SpacedOk(s) && d <= MAX_DEPTH
    ensures Run(Outside(d), SpacedText(s)) == Effect(d, Nesting(s.json))
    decreases s
  {
    hide Run, Step, Blank;
    ScansJson(d, s.json);
    Harmless(d, s.before);
    Harmless(d, s.after);
    Sequenced(d, TextOf(s.json), Nesting(s.json), s.after, 0);
    Sequenced(d, s.before, 0, TextOf(s.json) + s.after, Nesting(s.json));
  }

  lemma ScansName(d: nat, n: Name)
    requires NameOk(n) && d <= MAX_DEPTH
    ensures Run(Outside(d), NameText(n)) == Effect(d, 0)
  {
    hide Run, Step, Blank;
    StringKeeps(d, n.pieces);
    Harmless(d, n.before);
    Harmless(d, n.after);
    Sequenced(d, StringText(n.pieces), 0, n.after, 0);
    Sequenced(d, n.before, 0, StringText(n.pieces) + n.after, 0);
  }

  lemma {:induction false} ScansItems(d: nat, items: Items)
    requires ItemsOk(items) && d <= MAX_DEPTH
    ensures Run(Outside(d), ItemsText(items)) == Effect(d, ItemsNesting(items))
    decreases items
  {
    hide Run, Step, Blank;
    match items
    case NoItems(ws) => Harmless(d, ws);
    case LastItem(value) => ScansSpaced(d, value);
    case MoreItems(value, rest) =>
      ScansSpaced(d, value);
      ScansItems(d, rest);
      Harmless(d, ",");
      Sequenced(d, ",", 0, ItemsText(rest), ItemsNesting(rest));
      Sequenced(d, SpacedText(value), Nesting(value.json), "," + ItemsText(rest), ItemsNesting(rest));
  }

  lemma {:induction false} ScansMembers(d: nat, members: Members)
    requires MembersOk(members) && d <= MAX_DEPTH
    ensures Run(Outside(d), MembersText(members)) == Effect(d, MembersNesting(members))
    decreases members
  {
    hide Run, Step, Blank;
    match members
    case NoMembers(ws) => Harmless(d, ws);
    case LastMember(name, value) =>
      ScansName(d, name);
      ScansSpaced(d, value);
      Harmless(d, ":");
      Sequenced(d, ":", 0, SpacedText(value), Nesting(value.json));
      Sequenced(d, NameText(name), 0, ":" + SpacedText(value), Nesting(value.json));
    case MoreMembers(name, value, rest) =>
      ScansName(d, name);
      ScansSpaced(d, value);
      ScansMembers(d, rest);
      Harmless(d, ":");
      Harmless(d, ",");
      var n, m := Nesting(value.json), MembersNesting(rest);
      Sequenced(d, ",", 0, MembersText(rest), m);
      Sequenced(d, SpacedText(value), n, "," + MembersText(rest), m);
      Sequenced(d, ":", 0, SpacedText(value) + ("," + MembersText(rest)), Max(n, m));
      Sequenced(d, NameText(name), 0, ":" + (SpacedText(value) + ("," + MembersText(rest))), Max(n, m));
  }

  /** On every JSON text the scanner accepts if and only if containers nest at most 64 deep, and
      it then ends outside every string and container. */
  lemma ScannerIsExact(s: Spaced)
    requires SpacedOk(s)
    ensures var final := Run(Outside(0), SpacedText(s));
            && (!final.TooDeep? <==> Nesting(s.json) <= MAX_DEPTH)
            && (!final.TooDeep? ==> final == Outside(0))
  {
    ScansSpaced(0, s);
    hide Run, Step;
  }

  // ---------------------------------------------------------------- encoding

  type Byte = b: int | 0 <= b < 256

  const LF: Byte := 10

  function Joined(parts: seq<seq<Byte>>): seq<Byte> {
    if parts == [] then [] else parts[0] + Joined(parts[1..])
  }

  lemma {:induction false} JoinedAppend(parts: seq<seq<Byte>>, n: nat)
    requires n < |parts|
    ensures Joined(parts[..n + 1]) == Joined(parts[..n]) + parts[n]
    decreases n
  {
    if n == 0 {
      assert parts[..1][0] == parts[0] && parts[..1][1..] == parts[..0];
    } else {
      assert parts[..n + 1][1..] == parts[1..][..n] && parts[..n][1..] == parts[1..][..n - 1];
      JoinedAppend(parts[1..], n - 1);
    }
  }

  lemma {:induction false} JoinedGrows(parts: seq<seq<Byte>>, n: nat)
    requires n <= |parts|
    ensures |Joined(parts[..n])| <= |Joined(parts)|
    decreases |parts| - n
  {
    if n < |parts| {
      JoinedAppend(parts, n);
      JoinedGrows(parts, n + 1);
    } else {
      assert parts[..n] == parts;
    }
  }

  /** `encode_frame`: the whole value and its LF, or refused exactly when that is over the bound. */
  method EncodeFrame(parts: seq<seq<Byte>>) returns (frame: Option<seq<Byte>>)
    ensures frame == None <==> |Joined(parts)| + 1 > MAX_FRAME
    ensures frame.Some? ==> frame.value == Joined(parts) + [LF] && |frame.value| <= MAX_FRAME
  {
    var encoded: seq<Byte> := [];
    for i := 0 to |parts|
      invariant encoded == Joined(parts[..i]) && |encoded| < MAX_FRAME
    {
      JoinedAppend(parts, i);
      if |encoded| + |parts[i]| >= MAX_FRAME {
        JoinedGrows(parts, i + 1);
        return None;
      }
      encoded := encoded + parts[i];
    }
    assert parts[..|parts|] == parts;
    frame := Some(encoded + [LF]);
  }
}
