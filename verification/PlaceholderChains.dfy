/** When substituting placeholders succeeds, and with what (crates/containerproxy/src/config/loader.rs). */
module PlaceholderChains {
  import opened Wrappers
  import opened TextSearch
  import opened Placeholders

  /** No text is lost in pieces. */
  lemma {:induction false} PiecesAreLossless(raw: string)
    ensures WrittenAll(Pieces(raw)) == raw
    decreases |raw|
  {
    hide FindIn;
    if Find(raw, "${").Some? && Find(raw[Find(raw, "${").value + 2..], "}").Some? {
      var start := Find(raw, "${").value;
      var after := raw[start + 2..];
      var end := Find(after, "}").value;
      PiecesOfFirst(raw);
      PiecesAreLossless(after[end + 1..]);
      WrittenTwo(Literal(raw[..start]), Placeholder(after[..end]), Pieces(after[end + 1..]));
      CutTwice(raw, start, end);
    } else {
      WrittenOne(raw);
    }
  }

  lemma WrittenOne(text: string)
    ensures WrittenAll([Literal(text)]) == text
  {
    assert [Literal(text)][1..] == [];
    assert text + "" == text;
  }

  lemma WrittenTwo(a: Piece, b: Piece, rest: seq<Piece>)
    ensures WrittenAll([a, b] + rest) == Written(a) + (Written(b) + WrittenAll(rest))
  {
    var pieces := [a, b] + rest;
    assert pieces[1..] == [b] + rest;
    assert pieces[1..][1..] == rest;
  }

  lemma CutTwice(raw: string, start: nat, end: nat)
    requires start + 2 <= |raw| && raw[start..start + 2] == "${"
    requires start + 2 + end < |raw| && Occurs(raw[start + 2..], "}", end, |raw| - start - 2)
    ensures var after := raw[start + 2..];
      raw[..start] + ("${" + after[..end] + "}" + after[end + 1..]) == raw
  {
    var after := raw[start + 2..];
    assert after[end..end + 1] == "}";
    assert after == after[..end] + "}" + after[end + 1..];
    assert raw == raw[..start] + raw[start..start + 2] + after;
  }

  ghost predicate IsSubstituted(sources: Sources, piece: Piece) {
    piece.Placeholder? && Bound(sources, piece.expression).Some?
  }

  /** Text none of whose placeholders has a value or a default stays as it is. */
  lemma {:induction false} UnboundIsUnchanged(sources: Sources, raw: string, depth: nat)
    requires depth <= MAX_DEPTH
    requires forall piece | piece in Pieces(raw) :: !IsSubstituted(sources, piece)
    ensures Resolve(sources, raw, depth) == Some(raw)
  {
    hide Pieces;
    UnboundPieces(sources, Pieces(raw), depth);
    PiecesAreLossless(raw);
  }

  lemma {:induction false} UnboundPieces(sources: Sources, pieces: seq<Piece>, depth: nat)
    requires depth <= MAX_DEPTH
    requires forall piece | piece in pieces :: !IsSubstituted(sources, piece)
    ensures ResolveAll(sources, pieces, depth) == Some(WrittenAll(pieces))
  {
    hide Bound;
    if pieces != [] {
      assert pieces[0] in pieces;
      UnboundPieces(sources, pieces[1..], depth);
    }
  }

  /** What resolves, resolves to the same with fewer levels used up. */
  lemma {:induction false} ShallowerIsSame(sources: Sources, raw: string, depth: nat, shallower: nat)
    requires shallower <= depth && Resolve(sources, raw, depth).Some?
    ensures Resolve(sources, raw, shallower) == Resolve(sources, raw, depth)
    decreases MAX_DEPTH + 1 - depth, 1, 0
  {
    hide Pieces;
    ShallowerPieces(sources, Pieces(raw), depth, shallower);
  }

  lemma {:induction false} ShallowerPieces(sources: Sources, pieces: seq<Piece>, depth: nat, shallower: nat)
    requires shallower <= depth <= MAX_DEPTH && ResolveAll(sources, pieces, depth).Some?
    ensures ResolveAll(sources, pieces, shallower) == ResolveAll(sources, pieces, depth)
    decreases MAX_DEPTH + 1 - depth, 0, |pieces|
  {
    hide Bound, Resolve;
    if pieces != [] {
      if IsSubstituted(sources, pieces[0]) {
        ShallowerIsSame(sources, Bound(sources, pieces[0].expression).value, depth + 1, shallower + 1);
      }
      ShallowerPieces(sources, pieces[1..], depth, shallower);
    }
  }

  /** `value` is put in for a placeholder of `raw`. */
  ghost predicate Substituted(sources: Sources, raw: string, value: string) {
    exists piece :: piece in Pieces(raw) && piece.Placeholder? && Bound(sources, piece.expression) == Some(value)
  }

  ghost predicate IsChain(sources: Sources, chain: seq<string>) {
    && |chain| > 0
    && forall i | 0 <= i < |chain| - 1 :: Substituted(sources, chain[i], chain[i + 1])
  }

  ghost predicate IsChainFrom(sources: Sources, raw: string, chain: seq<string>) {
    IsChain(sources, chain) && chain[0] == raw
  }

  /** Resolving fails exactly when values lead to values more often than there are levels left. */
  lemma {:induction false} FailsExactlyWhenTooDeep(sources: Sources, raw: string, depth: nat)
    requires depth <= MAX_DEPTH + 1
    ensures Resolve(sources, raw, depth).None?
       <==> exists chain :: IsChainFrom(sources, raw, chain) && |chain| == MAX_DEPTH + 2 - depth
    decreases MAX_DEPTH + 1 - depth
  {
    hide Pieces, Substituted, ResolveAll, IsChainFrom;
    if depth == MAX_DEPTH + 1 {
      ChainOfOne(sources, raw);
    } else {
      if Resolve(sources, raw, depth).None? {
        var value := FailingPiece(sources, Pieces(raw), depth);
        SubstitutedBy(sources, raw, value);
        FailsExactlyWhenTooDeep(sources, value, depth + 1);
        var chain :| IsChainFrom(sources, value, chain) && |chain| == MAX_DEPTH + 1 - depth;
        LongerChain(sources, raw, value, chain);
      }
      forall chain | IsChainFrom(sources, raw, chain) && |chain| == MAX_DEPTH + 2 - depth
        ensures Resolve(sources, raw, depth).None?
      {
        ShorterChain(sources, raw, chain);
        FailsExactlyWhenTooDeep(sources, chain[1], depth + 1);
        SubstitutionFails(sources, raw, chain[1], depth);
      }
    }
  }

  lemma ChainOfOne(sources: Sources, raw: string)
    ensures IsChainFrom(sources, raw, [raw])
  {
  }

  lemma LongerChain(sources: Sources, raw: string, value: string, chain: seq<string>)
    requires Substituted(sources, raw, value) && IsChainFrom(sources, value, chain)
    ensures IsChainFrom(sources, raw, [raw] + chain)
  {
    hide Substituted;
  }

  lemma ShorterChain(sources: Sources, raw: string, chain: seq<string>)
    requires IsChainFrom(sources, raw, chain) && |chain| > 1
    ensures Substituted(sources, raw, chain[1]) && IsChainFrom(sources, chain[1], chain[1..])
  {
    hide Substituted;
    assert Substituted(sources, chain[0], chain[1]);
  }

  lemma SubstitutedBy(sources: Sources, raw: string, value: string)
    requires exists piece ::
               piece in Pieces(raw) && piece.Placeholder? && Bound(sources, piece.expression) == Some(value)
    ensures Substituted(sources, raw, value)
  {
  }

  lemma {:induction false} FailingPiece(sources: Sources, pieces: seq<Piece>, depth: nat) returns (value: string)
    requires depth <= MAX_DEPTH && ResolveAll(sources, pieces, depth).None?
    ensures exists piece :: piece in pieces && piece.Placeholder? && Bound(sources, piece.expression) == Some(value)
    ensures Resolve(sources, value, depth + 1).None?
  {
    hide Bound, Resolve;
    if ResolvePiece(sources, pieces[0], depth).None? {
      value := Bound(sources, pieces[0].expression).value;
      assert pieces[0] in pieces;
    } else {
      value := FailingPiece(sources, pieces[1..], depth);
      var piece :| piece in pieces[1..] && piece.Placeholder? && Bound(sources, piece.expression) == Some(value);
      assert piece in pieces;
    }
  }

  lemma SubstitutionFails(sources: Sources, raw: string, value: string, depth: nat)
    requires depth <= MAX_DEPTH
    requires Substituted(sources, raw, value) && Resolve(sources, value, depth + 1).None?
    ensures Resolve(sources, raw, depth).None?
  {
    hide Bound, Pieces;
    var piece :| piece in Pieces(raw) && piece.Placeholder? && Bound(sources, piece.expression) == Some(value);
    OneFailingPiece(sources, Pieces(raw), piece, depth);
  }

  lemma {:induction false} OneFailingPiece(sources: Sources, pieces: seq<Piece>, piece: Piece, depth: nat)
    requires depth <= MAX_DEPTH && piece in pieces && ResolvePiece(sources, piece, depth).None?
    ensures ResolveAll(sources, pieces, depth).None?
  {
    hide ResolvePiece;
    if piece != pieces[0] {
      OneFailingPiece(sources, pieces[1..], piece, depth);
    }
  }

  /** A chain that comes back to a value can be made as long as one likes. */
  lemma {:induction false} CycleIsEndless(sources: Sources, chain: seq<string>, i: nat, j: nat, length: nat)
      returns (longer: seq<string>)
    requires IsChain(sources, chain) && i < j < |chain| && chain[i] == chain[j] && length > 0
    ensures IsChainFrom(sources, chain[0], longer) && |longer| == length
    decreases length - j
  {
    hide Substituted;
    if length <= |chain| {
      longer := chain[..length];
    } else {
      var again := chain[..j + 1] + chain[i + 1..j + 1];
      forall k | 0 <= k < |again| - 1
        ensures Substituted(sources, again[k], again[k + 1])
      {
        if k < j {
          assert again[k] == chain[k] && again[k + 1] == chain[k + 1];
        } else {
          var back := k - j + i;
          assert again[k] == chain[back] && again[k + 1] == chain[back + 1];
        }
      }
      longer := CycleIsEndless(sources, again, j, j + (j - i), length);
    }
  }

  /** Values that refer to each other in a circle are an error for whatever text refers to them. */
  lemma CycleFails(sources: Sources, raw: string, depth: nat, chain: seq<string>, i: nat, j: nat)
    requires IsChainFrom(sources, raw, chain) && i < j < |chain| && chain[i] == chain[j]
    ensures Resolve(sources, raw, depth).None?
  {
    if depth <= MAX_DEPTH {
      hide IsChain, Resolve;
      var longer := CycleIsEndless(sources, chain, i, j, MAX_DEPTH + 2 - depth);
      FailsExactlyWhenTooDeep(sources, raw, depth);
    }
  }
}
