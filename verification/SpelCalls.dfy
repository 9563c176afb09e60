/**
 How deep `parse_expression` (crates/spel/src/parser.rs) calls itself. Its limit counts calls of `parse_unary`,
 and the branches of a ternary and the fallback of an elvis operator nest calls of `parse_expression` alone.
 */
module SpelCalls {
  import opened Naturals
  import opened Wrappers
  import opened SpelSyntax
  import opened SpelGrammar
  import opened SpelPrinter
  import opened SpelText
  import opened SpelFrontEnd

  /** The greatest number of active calls of `parse_expression` while it reads what `PrintTo` prints, with the call
      that reads the first token. */
  function Calls(node: Node, minimum: nat): (n: nat)
    decreases node, 1
    ensures n >= 1
  {
    (if Level(node) < minimum then 1 else 0) + BareCalls(node)
  }

  function BareCalls(node: Node): (n: nat)
    decreases node, 0
    ensures n >= 1
  {
    match node
    case Property(target, _, _) => Calls(target, 8)
    case Index(target, index) => Max(Calls(target, 8), 1 + Calls(index, 0))
    case Call(None, _, arguments, _) => 1 + ItemsCalls(arguments)
    case Call(Some(target), _, arguments, _) => Max(Calls(target, 8), 1 + ItemsCalls(arguments))
    case Projection(target, body) => Max(Calls(target, 8), 1 + Calls(body, 0))
    case Selection(target, body) => Max(Calls(target, 8), 1 + Calls(body, 0))
    case Unary(_, operand) => Calls(operand, 7)
    case Binary(operator, left, right) =>
      Max(Calls(left, Precedence(operator)), 1 + Calls(right, Precedence(operator) + 1))
    case Ternary(condition, then_, otherwise) =>
      Max(Calls(condition, 1), 1 + Max(Calls(then_, 0), Calls(otherwise, 0)))
    case Elvis(value, fallback) => Max(Calls(value, 1), 1 + Calls(fallback, 0))
    case ListLiteral(items) => 1 + ItemsCalls(items)
    case MapLiteral(entries) => 1 + EntriesCalls(entries)
    case _ => 1
  }

  function ItemsCalls(items: seq<Node>): nat
    decreases items, 2
  {
    if items == [] then 0 else Max(Calls(items[0], 0), ItemsCalls(items[1..]))
  }

  function EntriesCalls(entries: seq<Entry>): nat
    decreases entries, 2
  {
    if entries == [] then 0 else Max(Calls(entries[0].value, 0), EntriesCalls(entries[1..]))
  }

  /** The greatest number of branches of ternaries and fallbacks of elvis operators that are inside each other. */
  function Branches(node: Node): nat
    decreases node, 0
  {
    match node
    case Property(target, _, _) => Branches(target)
    case Index(target, index) => Max(Branches(target), Branches(index))
    case Call(None, _, arguments, _) => ItemsBranches(arguments)
    case Call(Some(target), _, arguments, _) => Max(Branches(target), ItemsBranches(arguments))
    case Projection(target, body) => Max(Branches(target), Branches(body))
    case Selection(target, body) => Max(Branches(target), Branches(body))
    case Unary(_, operand) => Branches(operand)
    case Binary(_, left, right) => Max(Branches(left), Branches(right))
    case Ternary(condition, then_, otherwise) =>
      Max(Branches(condition), 1 + Max(Branches(then_), Branches(otherwise)))
    case Elvis(value, fallback) => Max(Branches(value), 1 + Branches(fallback))
    case ListLiteral(items) => ItemsBranches(items)
    case MapLiteral(entries) => EntriesBranches(entries)
    case _ => 0
  }

  function ItemsBranches(items: seq<Node>): nat
    decreases items, 1
  {
    if items == [] then 0 else Max(Branches(items[0]), ItemsBranches(items[1..]))
  }

  function EntriesBranches(entries: seq<Entry>): nat
    decreases entries, 1
  {
    if entries == [] then 0 else Max(Branches(entries[0].value), EntriesBranches(entries[1..]))
  }

  /** How many calls at most the operators of a level and the tighter ones nest: each right operand takes one. */
  function Stretch(level: nat): nat {
    if level == 0 then 7 else if level <= 7 then 8 - level else 1
  }

  predicate Between(calls: nat, frames: nat, branches: nat, stretch: nat) {
    branches < calls <= 7 * (frames - 1 + branches) + stretch
  }

  lemma BetweenMax(c: nat, f: nat, b: nat, calls: nat, frames: nat, branches: nat, stretch: nat)
    requires Between(c, f, b, stretch) && Between(calls, frames, branches, stretch)
    ensures Between(Max(c, calls), Max(f, frames), Max(b, branches), stretch)
  {
  }

  /** One more branch and one more bracket each allow for one more call. */
  lemma BetweenOuter(calls: nat, frames: nat, branches: nat)
    requires Between(calls, frames, branches, 7)
    ensures Between(1 + calls, frames, 1 + branches, 7) && Between(1 + calls, 1 + frames, branches, 1)
  {
  }

  predicate BareBetween(node: Node) {
    Between(BareCalls(node), BareFrames(node), Branches(node), Stretch(Level(node)))
  }

  lemma {:induction false} BareCallsBetween(node: Node)
    ensures BareBetween(node)
    decreases node, 0
  {
    hide BareBetween;
    match node
    case Property(_, _, _) | Index(_, _) | Projection(_, _) | Selection(_, _) => SuffixBetween(node);
    case Call(_, _, _, _) => CallBetween(node);
    case Unary(_, _) | Binary(_, _, _) => OperatorBetween(node);
    case Ternary(_, _, _) | Elvis(_, _) => ChoiceBetween(node);
    case ListLiteral(_) | MapLiteral(_) => CollectionBetween(node);
    case _ => LeafBetween(node);
  }

  predicate IsBetween(node: Node, minimum: nat) {
    Between(Calls(node, minimum), Frames(node, minimum), Branches(node), Stretch(minimum))
  }

  lemma {:induction false} SuffixBetween(node: Node)
    requires node.Property? || node.Index? || node.Projection? || node.Selection?
    ensures BareBetween(node)
    decreases node, 0, 0
  {
    hide Calls, Frames, Branches, BareCalls, BareFrames, BareBetween, IsBetween;
    CallsBetween(node.target, 8);
    match node
    case Property(target, name, safe) => PropertyBetween(target, name, safe);
    case Index(target, body) => CallsBetween(body, 0); BodyBetween(target, body);
    case Projection(target, body) => CallsBetween(body, 0); BodyBetween(target, body);
    case Selection(target, body) => CallsBetween(body, 0); BodyBetween(target, body);
  }

  lemma PropertyBetween(target: Node, name: string, safe: bool)
    requires IsBetween(target, 8)
    ensures BareBetween(Property(target, name, safe))
  {
    hide Calls, Frames, Between;
  }

  lemma BodyBetween(target: Node, body: Node)
    requires IsBetween(target, 8) && IsBetween(body, 0)
    ensures BareBetween(Index(target, body)) && BareBetween(Projection(target, body))
        && BareBetween(Selection(target, body))
  {
    hide Calls, Frames, Between, Branches, BareCalls, BareFrames;
    BetweenOuter(Calls(body, 0), Frames(body, 0), Branches(body));
    BetweenMax(Calls(target, 8), Frames(target, 8), Branches(target), 1 + Calls(body, 0), 1 + Frames(body, 0),
      Branches(body), 1);
    BodyUnfolds(target, body);
  }

  /** The measures of a node that adds a body in brackets to a target. */
  predicate HasBody(node: Node, target: Node, body: Node) {
    && BareCalls(node) == Max(Calls(target, 8), 1 + Calls(body, 0))
    && BareFrames(node) == Max(Frames(target, 8), 1 + Frames(body, 0))
    && Branches(node) == Max(Branches(target), Branches(body))
  }

  lemma BodyUnfolds(target: Node, body: Node)
    ensures HasBody(Index(target, body), target, body)
    ensures HasBody(Projection(target, body), target, body)
    ensures HasBody(Selection(target, body), target, body)
  {
    hide HasBody;
    IndexUnfolds(target, body);
    ProjectionUnfolds(target, body);
    SelectionUnfolds(target, body);
  }

  lemma IndexUnfolds(target: Node, body: Node)
    ensures HasBody(Index(target, body), target, body)
  {
    hide Calls, Frames;
  }

  lemma ProjectionUnfolds(target: Node, body: Node)
    ensures HasBody(Projection(target, body), target, body)
  {
    hide Calls, Frames;
  }

  lemma SelectionUnfolds(target: Node, body: Node)
    ensures HasBody(Selection(target, body), target, body)
  {
    hide Calls, Frames;
  }

  lemma {:induction false} CallBetween(node: Node)
    requires node.Call?
    ensures BareBetween(node)
    decreases node, 0, 0
  {
    hide Calls, Frames, ItemsCalls, ItemsFrames, ItemsBranches;
    ItemsCallsBetween(node.arguments);
    match node.receiver
    case Some(target) => CallsBetween(target, 8);
    case None =>
  }

  lemma {:induction false} OperatorBetween(node: Node)
    requires node.Unary? || node.Binary?
    ensures BareBetween(node)
    decreases node, 0, 0
  {
    hide Calls, Frames, Stretch;
    Stretches();
    match node
    case Unary(_, operand) => CallsBetween(operand, 7);
    case Binary(operator, left, right) =>
      CallsBetween(left, Precedence(operator));
      CallsBetween(right, Precedence(operator) + 1);
      StretchOfRight(operator, Precedence(operator));
  }

  lemma {:induction false} ChoiceBetween(node: Node)
    requires node.Ternary? || node.Elvis?
    ensures BareBetween(node)
    decreases node, 0, 0
  {
    hide BareCalls, BareFrames, Branches, Calls, Frames, BareBetween;
    match node
    case Ternary(condition, then_, otherwise) =>
      CallsBetween(condition, 1);
      CallsBetween(then_, 0);
      CallsBetween(otherwise, 0);
      TernaryBetween(condition, then_, otherwise);
    case Elvis(value, fallback) =>
      CallsBetween(value, 1);
      CallsBetween(fallback, 0);
      ElvisBetween(value, fallback);
  }

  lemma TernaryBetween(condition: Node, then_: Node, otherwise: Node)
    requires IsBetween(condition, 1) && IsBetween(then_, 0) && IsBetween(otherwise, 0)
    ensures BareBetween(Ternary(condition, then_, otherwise))
  {
    hide Calls, Frames, Between;
    var calls, frames, branches :=
      Max(Calls(then_, 0), Calls(otherwise, 0)), Max(Frames(then_, 0), Frames(otherwise, 0)),
      Max(Branches(then_), Branches(otherwise));
    BetweenMax(Calls(then_, 0), Frames(then_, 0), Branches(then_), Calls(otherwise, 0), Frames(otherwise, 0),
      Branches(otherwise), 7);
    BetweenOuter(calls, frames, branches);
    BetweenMax(Calls(condition, 1), Frames(condition, 1), Branches(condition), 1 + calls, frames, 1 + branches, 7);
  }

  lemma ElvisBetween(value: Node, fallback: Node)
    requires IsBetween(value, 1) && IsBetween(fallback, 0)
    ensures BareBetween(Elvis(value, fallback))
  {
    hide Calls, Frames, Between;
    var calls, frames, branches := Calls(fallback, 0), Frames(fallback, 0), Branches(fallback);
    BetweenOuter(calls, frames, branches);
    BetweenMax(Calls(value, 1), Frames(value, 1), Branches(value), 1 + calls, frames, 1 + branches, 7);
  }

  lemma {:induction false} CollectionBetween(node: Node)
    requires node.ListLiteral? || node.MapLiteral?
    ensures BareBetween(node)
    decreases node, 0, 0
  {
    hide Calls, Frames, ItemsCalls, ItemsFrames, ItemsBranches, EntriesCalls, EntriesFrames, EntriesBranches;
    if node.ListLiteral? {
      ItemsCallsBetween(node.items);
    } else {
      EntriesCallsBetween(node.entries);
    }
  }

  lemma LeafBetween(node: Node)
    requires !node.Property? && !node.Index? && !node.Projection? && !node.Selection? && !node.Call?
    requires !node.Unary? && !node.Binary? && !node.Ternary? && !node.Elvis? && !node.ListLiteral? && !node.MapLiteral?
    ensures BareBetween(node)
  {
  }

  lemma Stretches()
    ensures Stretch(0) == Stretch(1) == 7 && Stretch(7) == Stretch(8) == 1
    ensures forall level :: 1 <= Stretch(level) <= 7
  {
  }

  /** A right operand has one call less for itself. */
  lemma StretchOfRight(operator: BinaryOperator, minimum: nat)
    requires Floor(minimum) <= Precedence(operator)
    ensures Stretch(Precedence(operator) + 1) + 1 == Stretch(Precedence(operator)) <= Stretch(minimum)
  {
  }

  lemma StretchFalls(level: nat, minimum: nat)
    requires minimum <= level
    ensures Stretch(level) <= Stretch(minimum)
  {
  }

  lemma {:induction false} CallsBetween(node: Node, minimum: nat)
    requires minimum <= 8
    ensures IsBetween(node, minimum)
    decreases node, 1
  {
    hide BareCalls, BareFrames, Branches, Stretch;
    Stretches();
    if minimum <= Level(node) {
      StretchFalls(Level(node), minimum);
    }
    BareCallsBetween(node);
  }

  lemma {:induction false} ItemsCallsBetween(items: seq<Node>)
    ensures ItemsBranches(items) <= ItemsCalls(items) <= 7 * (ItemsFrames(items) + ItemsBranches(items))
    decreases items, 2
  {
    hide Calls, Frames, Branches;
    if items != [] {
      CallsBetween(items[0], 0);
      ItemsCallsBetween(items[1..]);
    }
  }

  lemma {:induction false} EntriesCallsBetween(entries: seq<Entry>)
    ensures EntriesBranches(entries) <= EntriesCalls(entries) <= 7 * (EntriesFrames(entries) + EntriesBranches(entries))
    decreases entries, 2
  {
    hide Calls, Frames, Branches;
    if entries != [] {
      CallsBetween(entries[0].value, 0);
      EntriesCallsBetween(entries[1..]);
    }
  }

  /** The calls for a tree lie between its branches and seven times its frames and branches. */
  lemma CallsOfTree(node: Node)
    ensures Branches(node) < Calls(node, 0) <= 7 * (Frames(node, 0) + Branches(node))
  {
    hide Branches, Calls, Frames;
    CallsBetween(node, 0);
  }

  ghost predicate CallsWithin(family: Node -> bool, factor: nat) {
    forall node | family(node) :: Calls(node, 0) <= factor * Frames(node, 0)
  }

  ghost predicate BranchesWithin(family: Node -> bool, factor: nat) {
    forall node | family(node) :: Branches(node) <= factor * Frames(node, 0)
  }

  /** On some trees the calls are bounded by a multiple of the frames if and only if the branches are. */
  lemma BoundedTogether(family: Node -> bool)
    ensures (exists factor: nat :: CallsWithin(family, factor)) <==>
        (exists factor: nat :: BranchesWithin(family, factor))
  {
    hide Calls, Frames, Branches, CallsWithin, BranchesWithin;
    if factor: nat :| CallsWithin(family, factor) {
      FewBranches(family, factor);
    }
    if factor: nat :| BranchesWithin(family, factor) {
      FewCalls(family, factor);
    }
  }

  lemma FewBranches(family: Node -> bool, factor: nat)
    requires CallsWithin(family, factor)
    ensures BranchesWithin(family, factor)
  {
    hide Calls, Frames, Branches;
    forall node | family(node)
      ensures Branches(node) <= factor * Frames(node, 0)
    {
      CallsOfTree(node);
    }
  }

  lemma FewCalls(family: Node -> bool, factor: nat)
    requires BranchesWithin(family, factor)
    ensures CallsWithin(family, 7 * (factor + 1))
  {
    hide Calls, Frames, Branches;
    forall node | family(node)
      ensures Calls(node, 0) <= 7 * (factor + 1) * Frames(node, 0)
    {
      CallsOfTree(node);
      var frames := Frames(node, 0);
      assert 7 * (factor + 1) * frames == 7 * (factor * frames) + 7 * frames;
    }
  }

  // Branches of each kind of tree.

  lemma TernaryBranches(condition: Node, then_: Node, otherwise: Node)
    ensures Branches(Ternary(condition, then_, otherwise)) ==
            Max(Max(Branches(condition), 1 + Branches(then_)), 1 + Branches(otherwise))
  {
  }

  lemma NoBranches()
    ensures ItemsBranches([]) == 0 && EntriesBranches([]) == 0
  {
  }

  lemma CollectionBranches()
    ensures forall items {:trigger ListLiteral(items)} :: Branches(ListLiteral(items)) == ItemsBranches(items)
    ensures forall entries {:trigger MapLiteral(entries)} :: Branches(MapLiteral(entries)) == EntriesBranches(entries)
  {
    hide ItemsBranches, EntriesBranches;
    forall items
      ensures Branches(ListLiteral(items)) == ItemsBranches(items)
    {
    }
    forall entries
      ensures Branches(MapLiteral(entries)) == EntriesBranches(entries)
    {
    }
  }

  // The input: `1 ?: 1 ?: ... ?: 1`.

  function Chain(count: nat): Node {
    if count == 0 then Int(1) else Elvis(Int(1), Chain(count - 1))
  }

  lemma One()
    ensures WellFormed(Int(1)) && Frames(Int(1), 0) == 1 && Branches(Int(1)) == 0 && Calls(Int(1), 0) == 1
  {
  }

  lemma LinkMeasures(node: Node)
    ensures WellFormed(Elvis(Int(1), node)) == WellFormed(node) && Frames(Elvis(Int(1), node), 0) == Frames(node, 0)
    ensures Branches(Elvis(Int(1), node)) == 1 + Branches(node) && Calls(Elvis(Int(1), node), 0) == 1 + Calls(node, 0)
  {
    var one := Int(1);
    assert WellFormed(one) && Branches(one) == 0 && Calls(one, 1) == 1 && Frames(one, 1) == 1;
  }

  lemma {:induction false} ChainMeasures(count: nat)
    ensures WellFormed(Chain(count)) && Frames(Chain(count), 0) == 1
    ensures Branches(Chain(count)) == count && Calls(Chain(count), 0) == count + 1
  {
    hide WellFormed, Frames, Branches, Calls;
    One();
    if count > 0 {
      ChainMeasures(count - 1);
      LinkMeasures(Chain(count - 1));
    }
  }

  /** One frame of `parse_unary` at a time is enough for it, so that it is accepted, however long it is, and yet
      each fallback is one more call inside the others. */
  lemma ChainIsAccepted(count: nat)
    ensures ParseText(Render(Print(Chain(count)))) == Ok(Chain(count), [])
    ensures Frames(Chain(count), 0) == 1 && Branches(Chain(count)) == count && Calls(Chain(count), 0) == count + 1
  {
    hide Frames, Calls, Branches, WellFormed, ParseText, Render, Print, Chain;
    ChainMeasures(count);
    RoundTrip(Chain(count));
  }
}
