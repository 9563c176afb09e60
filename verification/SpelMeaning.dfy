/**
 The depth guard only ever refuses: an evaluation that it does not stop yields exactly the value or
 error the expression has without it, at whatever depth. Plus laws of the unguarded meaning.
 */
module SpelMeaning {
  import opened Naturals
  import opened Wrappers
  import opened S = SpelSyntax
  import V = SpelValue
  import opened SpelValue
  import opened SpelEvaluator

  /** The greatest depth below its root at which a node of the tree may be evaluated. */
  function Height(node: Node): nat
    decreases node, 0
  {
    match node
    case Property(target, _, _) => 1 + Height(target)
    case Index(target, index) => 1 + Max(Height(target), Height(index))
    case Call(None, _, arguments, _) => HeightAll(arguments)
    case Call(Some(target), _, arguments, _) => Max(1 + Height(target), HeightAll(arguments))
    case Projection(target, body) => 1 + Max(Height(target), Height(body))
    case Selection(target, body) => 1 + Max(Height(target), Height(body))
    case Unary(_, operand) => 1 + Height(operand)
    case Binary(_, left, right) => 1 + Max(Height(left), Height(right))
    case Ternary(condition, then_, otherwise) => 1 + Max(Height(condition), Max(Height(then_), Height(otherwise)))
    case Elvis(value, fallback) => 1 + Max(Height(value), Height(fallback))
    case ListLiteral(items) => HeightAll(items)
    case MapLiteral(entries) => HeightEntries(entries)
    case _ => 0
  }

  function HeightAll(nodes: seq<Node>): nat
    decreases nodes, 1
  {
    if nodes == [] then 0 else Max(1 + Height(nodes[0]), HeightAll(nodes[1..]))
  }

  function HeightEntries(entries: seq<Entry>): nat
    decreases entries, 1
  {
    if entries == [] then 0 else Max(1 + Height(entries[0].value), HeightEntries(entries[1..]))
  }

  /** A depth and a limit: how much room an evaluation has. */
  datatype Room = Room(depth: nat, limit: Option<nat>) {
    predicate Fits(height: nat) { limit.Some? ==> depth + height <= limit.value }

    /** No more room than `other`. */
    predicate Within(other: Room) {
      other.limit.Some? ==> limit.Some? && limit.value - depth <= other.limit.value - other.depth
    }

    function Below(): Room { Room(depth + 1, limit) }
  }

  function In(host: Host, node: Node, this_: Option<Value>, room: Room): Outcome<Value> {
    Evaluate(host, node, this_, room.depth, room.limit)
  }

  /** The same outcome, unless the guard stopped the first, which had too little room for the height. */
  ghost predicate Agree<T>(a: Outcome<T>, b: Outcome<T>, room: Room, height: nat) {
    a == b || (a == V.Err(TooDeep) && !room.Fits(height))
  }

  lemma {:induction false} Guard(host: Host, node: Node, this_: Option<Value>, room: Room, more: Room)
    requires room.Within(more)
    ensures Agree(In(host, node, this_, room), In(host, node, this_, more), room, Height(node))
    decreases node, 0
  {
    hide Evaluate;
    if room.Fits(0) {
      match node
      case Property(_, _, _) | Unary(_, _) => GuardOne(host, node, this_, room, more);
      case Index(_, _) | Elvis(_, _) => GuardTwo(host, node, this_, room, more);
      case Binary(_, _, _) => GuardBinary(host, node, this_, room, more);
      case Ternary(_, _, _) => GuardTernary(host, node, this_, room, more);
      case Call(_, _, _, _) => GuardCall(host, node, this_, room, more);
      case Projection(_, _) | Selection(_, _) => GuardLoop(host, node, this_, room, more);
      case ListLiteral(_) | MapLiteral(_) => GuardCollection(host, node, this_, room, more);
      case _ => GuardLeaf(host, node, this_, room, more);
    } else {
      GuardStops(host, node, this_, room);
    }
  }

  lemma GuardStops(host: Host, node: Node, this_: Option<Value>, room: Room)
    requires !room.Fits(0)
    ensures In(host, node, this_, room) == V.Err(TooDeep)
  {
  }

  lemma CollectionUnfolds(host: Host, node: Node, this_: Option<Value>, room: Room)
    requires room.Fits(0)
    ensures node.ListLiteral? ==>
      In(host, node, this_, room)
        == var values := EvaluateAll(host, node.items, this_, room.depth + 1, room.limit);
           if values.Err? then V.Err(values.error) else Ok(V.List(values.value))
    ensures node.MapLiteral? ==>
      In(host, node, this_, room)
        == var values := EvaluateEntries(host, node.entries, this_, room.depth + 1, room.limit);
           if values.Err? then V.Err(values.error) else Ok(V.Map(values.value))
  {
    hide Apply, AsBool, AsInt, CallMethod, ReadIndex, ReadProperty, ReadVariable, Negated, Lookup, ProjectAll,
      SelectAll, IsTruthy, EvaluateAll, EvaluateEntries;
  }

  lemma NothingIsShallow(host: Host, this_: Option<Value>, room: Room)
    ensures EvaluateAll(host, [], this_, room.depth, room.limit) == Ok([])
    ensures EvaluateEntries(host, [], this_, room.depth, room.limit) == Ok(map[])
  {
  }

  lemma {:induction false} GuardCollection(host: Host, node: Node, this_: Option<Value>, room: Room, more: Room)
    requires room.Within(more) && room.Fits(0) && (node.ListLiteral? || node.MapLiteral?)
    ensures Agree(In(host, node, this_, room), In(host, node, this_, more), room, Height(node))
    decreases node, 0, 0
  {
    hide Evaluate, EvaluateAll, EvaluateEntries, In;
    CollectionUnfolds(host, node, this_, room);
    CollectionUnfolds(host, node, this_, more);
    NothingIsShallow(host, this_, room.Below());
    NothingIsShallow(host, this_, more.Below());
    if node.ListLiteral? {
      GuardAll(host, node.items, this_, room.Below(), more.Below());
    } else {
      GuardEntries(host, node.entries, this_, room.Below(), more.Below());
    }
  }

  lemma GuardLeaf(host: Host, node: Node, this_: Option<Value>, room: Room, more: Room)
    requires room.Within(more) && room.Fits(0) && Height(node) == 0
    requires !node.Call? && !node.ListLiteral? && !node.MapLiteral?
    ensures In(host, node, this_, room) == In(host, node, this_, more)
  {
    hide AsBool, CallMethod, ReadIndex, ReadProperty, Negated;
  }

  lemma {:induction false} GuardOne(host: Host, node: Node, this_: Option<Value>, room: Room, more: Room)
    requires room.Within(more) && room.Fits(0) && (node.Property? || node.Unary?)
    ensures Agree(In(host, node, this_, room), In(host, node, this_, more), room, Height(node))
    decreases node, 0, 0
  {
    hide Apply, AsBool, AsInt, CallMethod, ReadIndex, ReadProperty, ReadVariable, Negated, Lookup, EvaluateAll,
      EvaluateEntries, ProjectAll, SelectAll, IsTruthy;
    Guard(host, if node.Property? then node.target else node.operand, this_, room.Below(), more.Below());
  }

  lemma IndexUnfolds(host: Host, node: Node, this_: Option<Value>, room: Room)
    requires room.Fits(0) && node.Index?
    ensures var value := In(host, node.target, this_, room.Below());
      var place := In(host, node.index, this_, room.Below());
      In(host, node, this_, room)
        == if value.Err? then value else if place.Err? then place else ReadIndex(host, value.value, place.value)
  {
    hide Apply, AsBool, AsInt, CallMethod, ReadIndex, ReadProperty, ReadVariable, Negated, Lookup, EvaluateAll,
      EvaluateEntries, ProjectAll, SelectAll, IsTruthy;
  }

  lemma ElvisUnfolds(host: Host, node: Node, this_: Option<Value>, room: Room)
    requires room.Fits(0) && node.Elvis?
    ensures var value := In(host, node.value, this_, room.Below());
      In(host, node, this_, room)
        == if value.Ok? && value.value.Null? then In(host, node.fallback, this_, room.Below()) else value
  {
    hide Apply, AsBool, AsInt, CallMethod, ReadIndex, ReadProperty, ReadVariable, Negated, Lookup, EvaluateAll,
      EvaluateEntries, ProjectAll, SelectAll, IsTruthy;
  }

  lemma {:induction false} GuardTwo(host: Host, node: Node, this_: Option<Value>, room: Room, more: Room)
    requires room.Within(more) && room.Fits(0) && (node.Index? || node.Elvis?)
    ensures Agree(In(host, node, this_, room), In(host, node, this_, more), room, Height(node))
    decreases node, 0, 0
  {
    hide Evaluate, In, ReadIndex;
    if node.Index? {
      IndexUnfolds(host, node, this_, room);
      IndexUnfolds(host, node, this_, more);
      Guard(host, node.target, this_, room.Below(), more.Below());
      Guard(host, node.index, this_, room.Below(), more.Below());
    } else {
      ElvisUnfolds(host, node, this_, room);
      ElvisUnfolds(host, node, this_, more);
      Guard(host, node.value, this_, room.Below(), more.Below());
      Guard(host, node.fallback, this_, room.Below(), more.Below());
    }
  }

  /** The outcome of a binary operator from those of its operands. */
  function Combined(host: Host, operator: BinaryOperator, a: Outcome<Value>, b: Outcome<Value>): Outcome<Value> {
    if a.Err? then a
    else if operator.And? || operator.Or? then
      var first := AsBool(a.value);
      if first.Err? then V.Err(first.error)
      else if first.value == operator.Or? then Ok(V.Bool(first.value))
      else if b.Err? then b
      else
        var second := AsBool(b.value);
        if second.Err? then V.Err(second.error) else Ok(V.Bool(second.value))
    else if b.Err? then b
    else Apply(host, operator, a.value, b.value)
  }

  lemma BinaryUnfolds(host: Host, node: Node, this_: Option<Value>, room: Room)
    requires room.Fits(0) && node.Binary?
    ensures In(host, node, this_, room)
         == Combined(host, node.binary, In(host, node.left, this_, room.Below()),
           In(host, node.right, this_, room.Below()))
  {
    hide Apply, AsBool, AsInt, CallMethod, ReadIndex, ReadProperty, ReadVariable, Negated, Lookup, EvaluateAll,
      EvaluateEntries, ProjectAll, SelectAll, IsTruthy;
  }

  lemma {:induction false} GuardBinary(host: Host, node: Node, this_: Option<Value>, room: Room, more: Room)
    requires room.Within(more) && room.Fits(0) && node.Binary?
    ensures Agree(In(host, node, this_, room), In(host, node, this_, more), room, Height(node))
    decreases node, 0, 0
  {
    hide Evaluate, In, Apply, AsBool;
    BinaryUnfolds(host, node, this_, room);
    BinaryUnfolds(host, node, this_, more);
    Guard(host, node.left, this_, room.Below(), more.Below());
    Guard(host, node.right, this_, room.Below(), more.Below());
  }

  /** The outcome of a ternary from those of its parts. */
  function Chosen(condition: Outcome<Value>, then_: Outcome<Value>, otherwise: Outcome<Value>): Outcome<Value> {
    if condition.Err? then condition else
    var truth := AsBool(condition.value);
    if truth.Err? then V.Err(truth.error) else if truth.value then then_ else otherwise
  }

  lemma TernaryUnfolds(host: Host, node: Node, this_: Option<Value>, room: Room)
    requires room.Fits(0) && node.Ternary?
    ensures In(host, node, this_, room)
         == Chosen(In(host, node.condition, this_, room.Below()), In(host, node.then_, this_, room.Below()),
                   In(host, node.otherwise, this_, room.Below()))
  {
    hide Apply, AsBool, AsInt, CallMethod, ReadIndex, ReadProperty, ReadVariable, Negated, Lookup, EvaluateAll,
      EvaluateEntries, ProjectAll, SelectAll, IsTruthy;
  }

  lemma {:induction false} GuardTernary(host: Host, node: Node, this_: Option<Value>, room: Room, more: Room)
    requires room.Within(more) && room.Fits(0) && node.Ternary?
    ensures Agree(In(host, node, this_, room), In(host, node, this_, more), room, Height(node))
    decreases node, 0, 0
  {
    hide Evaluate, In, AsBool;
    TernaryUnfolds(host, node, this_, room);
    TernaryUnfolds(host, node, this_, more);
    Guard(host, node.condition, this_, room.Below(), more.Below());
    Guard(host, node.then_, this_, room.Below(), more.Below());
    Guard(host, node.otherwise, this_, room.Below(), more.Below());
  }

  lemma {:induction false} GuardLoop(host: Host, node: Node, this_: Option<Value>, room: Room, more: Room)
    requires room.Within(more) && room.Fits(0) && (node.Projection? || node.Selection?)
    ensures Agree(In(host, node, this_, room), In(host, node, this_, more), room, Height(node))
    decreases node, 0, 0
  {
    hide Apply, AsBool, AsInt, CallMethod, ReadIndex, ReadProperty, ReadVariable, Negated, Lookup, EvaluateAll,
      EvaluateEntries, ProjectAll, SelectAll, IsTruthy;
    Guard(host, node.target, this_, room.Below(), more.Below());
    var value := In(host, node.target, this_, room.Below());
    if value.Ok? {
      if node.Projection? {
        GuardProject(host, AsList(value.value), node.body, room.Below(), more.Below());
      } else {
        GuardSelect(host, AsList(value.value), node.body, room.Below(), more.Below());
      }
    }
  }

  lemma {:induction false} GuardCall(host: Host, node: Node, this_: Option<Value>, room: Room, more: Room)
    requires room.Within(more) && node.Call? && room.Fits(0)
    ensures Agree(In(host, node, this_, room), In(host, node, this_, more), room, Height(node))
    decreases node, 0, 0
  {
    hide Apply, AsBool, AsInt, CallMethod, ReadIndex, ReadProperty, ReadVariable, Negated, Lookup, ProjectAll,
      SelectAll, IsTruthy;
    GuardAll(host, node.arguments, this_, room.Below(), more.Below());
    match node.receiver
    case None =>
    case Some(target) =>
      Guard(host, target, this_, room.Below(), more.Below());
  }

  lemma {:induction false} GuardAll(host: Host, nodes: seq<Node>, this_: Option<Value>, room: Room, more: Room)
    requires room.Within(more)
    ensures Agree(EvaluateAll(host, nodes, this_, room.depth, room.limit),
                  EvaluateAll(host, nodes, this_, more.depth, more.limit), room,
                  if nodes == [] then 0 else HeightAll(nodes) - 1)
    decreases nodes, 1
  {
    if nodes != [] {
      Guard(host, nodes[0], this_, room, more);
      GuardAll(host, nodes[1..], this_, room, more);
    }
  }

  lemma {:induction false} GuardEntries(host: Host, entries: seq<Entry>, this_: Option<Value>, room: Room, more: Room)
    requires room.Within(more)
    ensures Agree(EvaluateEntries(host, entries, this_, room.depth, room.limit),
                  EvaluateEntries(host, entries, this_, more.depth, more.limit), room,
                  if entries == [] then 0 else HeightEntries(entries) - 1)
    decreases entries, 1
  {
    if entries != [] {
      Guard(host, entries[0].value, this_, room, more);
      GuardEntries(host, entries[1..], this_, room, more);
    }
  }

  lemma {:induction false} GuardProject(host: Host, items: seq<Value>, body: Node, room: Room, more: Room)
    requires room.Within(more)
    ensures Agree(ProjectAll(host, items, body, room.depth, room.limit),
                  ProjectAll(host, items, body, more.depth, more.limit), room, Height(body))
    decreases body, 1 + |items|
  {
    if items != [] {
      Guard(host, body, Some(items[0]), room, more);
      GuardProject(host, items[1..], body, room, more);
    }
  }

  lemma {:induction false} GuardSelect(host: Host, items: seq<Value>, body: Node, room: Room, more: Room)
    requires room.Within(more)
    ensures Agree(SelectAll(host, items, body, room.depth, room.limit),
                  SelectAll(host, items, body, more.depth, more.limit), room, Height(body))
    decreases body, 1 + |items|
  {
    if items != [] {
      Guard(host, body, Some(items[0]), room, more);
      GuardSelect(host, items[1..], body, room, more);
    }
  }

  /** What an expression means without the guard. */
  function Meaning(host: Host, node: Node, this_: Option<Value>): Outcome<Value> {
    Evaluate(host, node, this_, 0, None)
  }

  /**
   The guarded evaluator refines the unguarded one. Whatever the depth, it reports that the expression
   is too deep or yields exactly the unguarded value or error; a tree that fits is never refused; and
   what it yields at some depth it yields at every smaller one.
   */
  lemma GuardedRefinesMeaning(host: Host, node: Node, this_: Option<Value>, depth: nat, smaller: nat)
    requires smaller <= depth
    ensures var r := Evaluate(host, node, this_, depth, Some(MAX_DEPTH));
            && (r == V.Err(TooDeep) || r == Meaning(host, node, this_))
            && (depth + Height(node) <= MAX_DEPTH ==> r == Meaning(host, node, this_))
            && (r != V.Err(TooDeep) ==> r == Evaluate(host, node, this_, smaller, Some(MAX_DEPTH)))
  {
    hide Evaluate, Height;
    var room := Room(depth, Some(MAX_DEPTH));
    Guard(host, node, this_, room, Room(0, None));
    Guard(host, node, this_, room, Room(smaller, Some(MAX_DEPTH)));
  }

  /** Without the guard the depth does not matter. */
  lemma DepthIsIrrelevant(host: Host, node: Node, this_: Option<Value>, depth: nat)
    ensures Evaluate(host, node, this_, depth, None) == Meaning(host, node, this_)
  {
    hide Evaluate, Height;
    Guard(host, node, this_, Room(depth, None), Room(0, None));
  }

  /* Selection. */

  /** Selecting from what was selected changes nothing. */
  lemma {:induction false} SelectedAgain(host: Host, items: seq<Value>, body: Node, depth: nat, limit: Option<nat>)
    requires SelectAll(host, items, body, depth, limit).Ok?
    ensures var once := SelectAll(host, items, body, depth, limit).value;
            SelectAll(host, once, body, depth, limit) == Ok(once)
    decreases |items|
  {
    hide Evaluate;
    if items != [] {
      SelectedAgain(host, items[1..], body, depth, limit);
      var others := SelectAll(host, items[1..], body, depth, limit).value;
      assert ([items[0]] + others)[1..] == others;
    }
  }

  predicate IsSelected(host: Host, item: Value, body: Node, depth: nat, limit: Option<nat>) {
    var verdict := Evaluate(host, body, Some(item), depth, limit);
    verdict.Ok? && IsTruthy(host, verdict.value)
  }

  lemma SelectStep(host: Host, items: seq<Value>, body: Node, depth: nat, limit: Option<nat>)
    requires SelectAll(host, items, body, depth, limit).Ok? && items != []
    ensures Evaluate(host, body, Some(items[0]), depth, limit).Ok?
    ensures var others := SelectAll(host, items[1..], body, depth, limit);
      && others.Ok?
      && SelectAll(host, items, body, depth, limit).value
         == (if IsSelected(host, items[0], body, depth, limit) then [items[0]] else []) + others.value
  {
    hide Evaluate, IsTruthy;
  }

  /** `selected` are the items at these places, in their order. */
  predicate ArePlaces(items: seq<Value>, selected: seq<Value>, places: seq<nat>) {
    && |places| == |selected|
    && (forall i | 0 <= i < |places| :: places[i] < |items| && selected[i] == items[places[i]])
    && (forall i, j | 0 <= i < j < |places| :: places[i] < places[j])
  }

  lemma MorePlaces(items: seq<Value>, selected: seq<Value>, places: seq<nat>, keeps: bool)
    requires items != [] && ArePlaces(items[1..], selected, places)
    ensures ArePlaces(items, (if keeps then [items[0]] else []) + selected, (if keeps then [0] else []) + Moved(places))
  {
    assert ArePlaces(items, selected, Moved(places));
  }

  /** Selecting keeps exactly the items for which the body is truthy, in their order. */
  lemma {:induction false} SelectionKeepsTruthy(
      host: Host, items: seq<Value>, body: Node, depth: nat, limit: Option<nat>) returns (places: seq<nat>)
    requires SelectAll(host, items, body, depth, limit).Ok?
    ensures ArePlaces(items, SelectAll(host, items, body, depth, limit).value, places)
    ensures forall k: nat | k < |items| :: k in places <==> IsSelected(host, items[k], body, depth, limit)
    decreases |items|
  {
    hide Evaluate, IsSelected, SelectAll, ArePlaces;
    if items == [] {
      SelectNothing(host, body, depth, limit);
      places := [];
    } else {
      SelectStep(host, items, body, depth, limit);
      var others := SelectionKeepsTruthy(host, items[1..], body, depth, limit);
      var keeps := IsSelected(host, items[0], body, depth, limit);
      MorePlaces(items, SelectAll(host, items[1..], body, depth, limit).value, others, keeps);
      places := (if keeps then [0] else []) + Moved(others);
      forall k: nat | k < |items|
        ensures k in places <==> IsSelected(host, items[k], body, depth, limit)
      {
        MovedPlace(others, k);
        if k > 0 {
          assert items[k] == items[1..][k - 1];
        }
      }
    }
  }

  lemma SelectNothing(host: Host, body: Node, depth: nat, limit: Option<nat>)
    ensures SelectAll(host, [], body, depth, limit) == Ok([]) && ArePlaces([], [], [])
  {
  }

  function Moved(places: seq<nat>): (r: seq<nat>)
    ensures |r| == |places| && forall i | 0 <= i < |places| :: r[i] == places[i] + 1
  {
    seq(|places|, i requires 0 <= i < |places| => places[i] + 1)
  }

  lemma MovedPlace(places: seq<nat>, k: nat)
    ensures k > 0 ==> (k in Moved(places) <==> k - 1 in places)
    ensures 0 !in Moved(places)
  {
    if k > 0 && k - 1 in places {
      var i :| 0 <= i < |places| && places[i] == k - 1;
      assert Moved(places)[i] == k;
    }
  }

  /** Selecting twice with the same body means what selecting once means, errors included. */
  lemma SelectionIsIdempotent(host: Host, target: Node, body: Node, this_: Option<Value>)
    ensures Meaning(host, Selection(Selection(target, body), body), this_)
         == Meaning(host, Selection(target, body), this_)
  {
    hide Evaluate, SelectAll;
    var once := Selection(target, body);
    DepthIsIrrelevant(host, once, this_, 1);
    var value := Evaluate(host, target, this_, 1, None);
    SelectionUnfolds(host, target, body, this_);
    SelectionUnfolds(host, once, body, this_);
    if value.Ok? {
      var items := AsList(value.value);
      if SelectAll(host, items, body, 1, None).Ok? {
        SelectedAgain(host, items, body, 1, None);
      }
    }
  }

  lemma SelectionUnfolds(host: Host, target: Node, body: Node, this_: Option<Value>)
    ensures var value := Evaluate(host, target, this_, 1, None);
            Meaning(host, Selection(target, body), this_) ==
            if value.Err? then value
            else var items := SelectAll(host, AsList(value.value), body, 1, None);
                 if items.Err? then V.Err(items.error) else Ok(V.List(items.value))
  {
  }

  /** Negating a conjunction is the disjunction of the negations, short circuits and errors included. */
  lemma DeMorgan(host: Host, left: Node, right: Node, this_: Option<Value>)
    ensures Meaning(host, Unary(Not, Binary(And, left, right)), this_)
         == Meaning(host, Binary(Or, Unary(Not, left), Unary(Not, right)), this_)
  {
    hide Evaluate;
    NotUnfolds(host, Binary(And, left, right), this_, 0);
    LogicUnfolds(host, And, left, right, this_, 1);
    LogicUnfolds(host, Or, Unary(Not, left), Unary(Not, right), this_, 0);
    NotUnfolds(host, left, this_, 1);
    NotUnfolds(host, right, this_, 1);
  }

  lemma LogicUnfolds(host: Host, operator: BinaryOperator, left: Node, right: Node, this_: Option<Value>, depth: nat)
    requires operator == And || operator == Or
    ensures var a := Truth(Evaluate(host, left, this_, depth + 1, None));
            Evaluate(host, Binary(operator, left, right), this_, depth, None) ==
            Boolean(if a.Err? || a.value == operator.Or? then a
                    else Truth(Evaluate(host, right, this_, depth + 1, None)))
  {
    hide Apply, AsBool, AsInt, CallMethod, ReadIndex, ReadProperty, ReadVariable, Negated, Lookup, EvaluateAll,
      EvaluateEntries, ProjectAll, SelectAll, IsTruthy;
  }

  function Truth(value: Outcome<Value>): Outcome<bool> {
    if value.Err? then V.Err(value.error) else AsBool(value.value)
  }

  function Boolean(truth: Outcome<bool>): Outcome<Value> {
    if truth.Err? then V.Err(truth.error) else Ok(V.Bool(truth.value))
  }

  lemma NotUnfolds(host: Host, operand: Node, this_: Option<Value>, depth: nat)
    ensures var truth := Truth(Evaluate(host, operand, this_, depth + 1, None));
            Evaluate(host, Unary(Not, operand), this_, depth, None) ==
            Boolean(if truth.Err? then truth else Ok(!truth.value))
  {
    hide Apply, AsBool, AsInt, CallMethod, ReadIndex, ReadProperty, ReadVariable, Negated, Lookup, EvaluateAll,
      EvaluateEntries, ProjectAll, SelectAll, IsTruthy;
  }
}
