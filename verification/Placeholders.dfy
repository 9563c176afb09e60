/** Placeholder substitution in configuration values (crates/containerproxy/src/config/loader.rs). */
module Placeholders {
  import opened Ascii
  import opened Wrappers
  import opened TextSearch

  /** Where values come from: the environment, then the properties themselves. */
  datatype Sources = Sources(env: map<string, string>, property: string -> Option<string>)

  const MAX_DEPTH := 8

  predicate IsWhitespace(c: char) {
    var code := c as int;
    || 0x09 <= code <= 0x0D || code in {0x20, 0x85, 0xA0, 0x1680}
    || 0x2000 <= code <= 0x200A || code in {0x2028, 0x2029, 0x202F, 0x205F, 0x3000}
  }

  function TrimStart(text: string): string {
    if text != "" && IsWhitespace(text[0]) then TrimStart(text[1..]) else text
  }

  function TrimEnd(text: string): string {
    if text != "" && IsWhitespace(text[|text| - 1]) then TrimEnd(text[..|text| - 1]) else text
  }

  function Trim(text: string): string {
    TrimEnd(TrimStart(text))
  }

  function EnvName(path: string): string {
    seq(|path|, i requires 0 <= i < |path| =>
      if path[i] == '.' || path[i] == '-' then '_' else UpperCase(path[i]))
  }

  function Lookup(sources: Sources, name: string): Option<string> {
    if name in sources.env then Some(sources.env[name])
    else if EnvName(name) in sources.env then Some(sources.env[EnvName(name)])
    else sources.property(name)
  }

  /** What a placeholder stands for: the value of its name, or else its default. */
  function Bound(sources: Sources, expression: string): Option<string> {
    match Find(expression, ":")
    case None => Lookup(sources, Trim(expression))
    case Some(colon) =>
      var value := Lookup(sources, Trim(expression[..colon]));
      if value.Some? then value else Some(expression[colon + 1..])
  }

  datatype Piece = Literal(text: string) | Placeholder(expression: string)

  function Pieces(raw: string): seq<Piece>
    decreases |raw|
  {
    match Find(raw, "${")
    case None => [Literal(raw)]
    case Some(start) =>
      var after := raw[start + 2..];
      match Find(after, "}")
      case None => [Literal(raw)]  // unbalanced: kept as it is
      case Some(end) => [Literal(raw[..start]), Placeholder(after[..end])] + Pieces(after[end + 1..])
  }

  function Written(piece: Piece): string {
    match piece
    case Literal(text) => text
    case Placeholder(expression) => "${" + expression + "}"
  }

  function WrittenAll(pieces: seq<Piece>): string {
    if pieces == [] then "" else Written(pieces[0]) + WrittenAll(pieces[1..])
  }

  /** None: too deeply nested. */
  function Resolve(sources: Sources, raw: string, depth: nat): Option<string>
    decreases MAX_DEPTH + 1 - depth, 1, 0
  {
    if depth > MAX_DEPTH then None else ResolveAll(sources, Pieces(raw), depth)
  }

  function ResolvePiece(sources: Sources, piece: Piece, depth: nat): Option<string>
    requires depth <= MAX_DEPTH
    decreases MAX_DEPTH + 1 - depth, 0, 0
  {
    if piece.Literal? || Bound(sources, piece.expression).None? then Some(Written(piece))
    else Resolve(sources, Bound(sources, piece.expression).value, depth + 1)
  }

  function ResolveAll(sources: Sources, pieces: seq<Piece>, depth: nat): Option<string>
    requires depth <= MAX_DEPTH
    decreases MAX_DEPTH + 1 - depth, 0, |pieces| + 1
  {
    if pieces == [] then Some("") else
    var first := ResolvePiece(sources, pieces[0], depth);
    var rest := ResolveAll(sources, pieces[1..], depth);
    if first.None? || rest.None? then None else Some(first.value + rest.value)
  }

  method ResolvePlaceholdersIn(sources: Sources, raw: string, depth: nat) returns (r: Option<string>)
    ensures r == Resolve(sources, raw, depth)
    decreases MAX_DEPTH + 1 - depth
  {
    if depth > MAX_DEPTH {
      return None;
    }
    hide Pieces, ResolveAll, Bound, FindIn;
    var result := "";
    var rest := raw;
    NothingPrefixed(ResolveAll(sources, Pieces(rest), depth));
    while Find(rest, "${").Some?
      invariant Resolve(sources, raw, depth) == Prefixed(result, ResolveAll(sources, Pieces(rest), depth))
      decreases |rest|
    {
      var start := Find(rest, "${").value;
      var after := rest[start + 2..];
      var found := Find(after, "}");
      if found.None? {
        LastPiece(sources, rest, depth);
        return Some(result + rest);
      }
      var end := found.value;
      var expression := after[..end];
      var value := Bound(sources, expression);
      FirstPieces(sources, rest, depth);
      var resolved := Some("${" + expression + "}");
      if value.Some? {
        resolved := ResolvePlaceholdersIn(sources, value.value, depth + 1);
        if resolved.None? {
          return None;
        }
      }
      PrefixedTwice(result, rest[..start], resolved.value, ResolveAll(sources, Pieces(after[end + 1..]), depth));
      result := result + rest[..start] + resolved.value;
      rest := after[end + 1..];
    }
    LastPiece(sources, rest, depth);
    result := result + rest;
    return Some(result);
  }

  function Prefixed(prefix: string, r: Option<string>): Option<string> {
    match r
    case None => None
    case Some(text) => Some(prefix + text)
  }

  lemma NothingPrefixed(r: Option<string>)
    ensures Prefixed("", r) == r
  {
    if r.Some? {
      assert "" + r.value == r.value;
    }
  }

  lemma PrefixedTwice(a: string, b: string, c: string, r: Option<string>)
    ensures Prefixed(a, Prefixed(b, Prefixed(c, r))) == Prefixed(a + b + c, r)
  {
    if r.Some? {
      assert a + (b + (c + r.value)) == (a + b + c) + r.value;
    }
  }

  /** Text without a complete placeholder stays as it is. */
  lemma LastPiece(sources: Sources, rest: string, depth: nat)
    requires depth <= MAX_DEPTH
    requires Find(rest, "${").None? || Find(rest[Find(rest, "${").value + 2..], "}").None?
    ensures ResolveAll(sources, Pieces(rest), depth) == Some(rest)
  {
    hide FindIn;
    assert Pieces(rest) == [Literal(rest)];
    assert [Literal(rest)][1..] == [];
    assert rest + "" == rest;
  }

  /** Text up to the end of its first placeholder. */
  lemma FirstPieces(sources: Sources, rest: string, depth: nat)
    requires depth <= MAX_DEPTH
    requires Find(rest, "${").Some? && Find(rest[Find(rest, "${").value + 2..], "}").Some?
    ensures var start := Find(rest, "${").value;
      var after := rest[start + 2..];
      var end := Find(after, "}").value;
      var first := ResolvePiece(sources, Placeholder(after[..end]), depth);
      var tail := ResolveAll(sources, Pieces(after[end + 1..]), depth);
      ResolveAll(sources, Pieces(rest), depth)
        == if first.None? then None else Prefixed(rest[..start], Prefixed(first.value, tail))
  {
    hide FindIn, Pieces, ResolvePiece;
    var start := Find(rest, "${").value;
    var after := rest[start + 2..];
    var end := Find(after, "}").value;
    PiecesOfFirst(rest);
    TwoPieces(sources, Literal(rest[..start]), Placeholder(after[..end]), Pieces(after[end + 1..]), depth);
    ResolveLiteral(sources, rest[..start], depth);
  }

  lemma ResolveLiteral(sources: Sources, text: string, depth: nat)
    requires depth <= MAX_DEPTH
    ensures ResolvePiece(sources, Literal(text), depth) == Some(text)
  {
  }

  lemma PiecesOfFirst(rest: string)
    requires Find(rest, "${").Some? && Find(rest[Find(rest, "${").value + 2..], "}").Some?
    ensures var start := Find(rest, "${").value;
      var after := rest[start + 2..];
      var end := Find(after, "}").value;
      Pieces(rest) == [Literal(rest[..start]), Placeholder(after[..end])] + Pieces(after[end + 1..])
  {
    hide FindIn;
  }

  lemma TwoPieces(sources: Sources, a: Piece, b: Piece, rest: seq<Piece>, depth: nat)
    requires depth <= MAX_DEPTH
    ensures var first := ResolvePiece(sources, a, depth);
      var second := ResolvePiece(sources, b, depth);
      var tail := ResolveAll(sources, rest, depth);
      ResolveAll(sources, [a, b] + rest, depth)
        == if first.None? || second.None? then None else Prefixed(first.value, Prefixed(second.value, tail))
  {
    hide ResolvePiece;
    var pieces := [a, b] + rest;
    assert pieces[1..] == [b] + rest;
    assert pieces[1..][1..] == rest;
    assert ResolveAll(sources, pieces[1..], depth)
        == var second := ResolvePiece(sources, b, depth);
           if second.None? then None else Prefixed(second.value, ResolveAll(sources, rest, depth));
  }
}
