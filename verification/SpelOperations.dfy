/**
 What the operators, properties and methods yield (crates/spel/src/eval.rs, value.rs), in plain arithmetic and
 characters, and how they hang together.
 */
module SpelOperations {
  import opened Wrappers
  import opened Wraparound
  import opened S = SpelSyntax
  import V = SpelValue
  import opened SpelValue
  import opened SpelEvaluator
  import opened SpelMeaning
  import opened SpelLaws
  import opened SpelEquality
  import opened SpelArithmetic
  import opened SpelIndexing

  predicate IsInt(host: Host, node: Node, this_: Option<Value>, n: Long) {
    Meaning(host, node, this_) == Ok(V.Int(n))
  }

  lemma BinaryMeans(host: Host, operator: BinaryOperator, left: Node, right: Node, this_: Option<Value>)
    requires operator != And && operator != Or
    ensures var a, b := Meaning(host, left, this_), Meaning(host, right, this_);
      Meaning(host, Binary(operator, left, right), this_)
        == if a.Err? then a else if b.Err? then b else Apply(host, operator, a.value, b.value)
  {
    hide Evaluate, In, Apply, AsBool;
    DepthIsIrrelevant(host, left, this_, 1);
    DepthIsIrrelevant(host, right, this_, 1);
    BinaryUnfolds(host, Binary(operator, left, right), this_, Room(0, None));
    InMeaning(host, Binary(operator, left, right), this_);
    InMeaning(host, left, this_);
    InMeaning(host, right, this_);
  }

  predicate IsArithmetic(operator: BinaryOperator) {
    operator in {Add, Subtract, Multiply, Divide, Modulo}
  }

  lemma ArithmeticMeans(
      host: Host, operator: BinaryOperator, x: Node, y: Node, this_: Option<Value>, a: Long, b: Long)
    requires IsInt(host, x, this_, a) && IsInt(host, y, this_, b) && IsArithmetic(operator)
    ensures Meaning(host, Binary(operator, x, y), this_) == Arithmetic(operator, a, b)
  {
    hide Meaning, Arithmetic;
    BinaryMeans(host, operator, x, y, this_);
  }

  /** Sums, differences and products are exact up to a multiple of 2^64. */
  lemma ArithmeticIsModular(host: Host, x: Node, y: Node, this_: Option<Value>, a: Long, b: Long)
    requires IsInt(host, x, this_, a) && IsInt(host, y, this_, b)
    ensures var sum, difference, product := Meaning(host, Binary(Add, x, y), this_),
        Meaning(host, Binary(Subtract, x, y), this_), Meaning(host, Binary(Multiply, x, y), this_);
      && sum.Ok? && sum.value.Int? && IsCongruent(sum.value.number, a + b)
      && difference.Ok? && difference.value.Int? && IsCongruent(difference.value.number, a - b)
      && product.Ok? && product.value.Int? && IsCongruent(product.value.number, a * b)
  {
    hide Meaning, IsCongruent, IsInt, Wrapped;
    ArithmeticMeans(host, Add, x, y, this_, a, b);
    ArithmeticMeans(host, Subtract, x, y, this_, a, b);
    ArithmeticMeans(host, Multiply, x, y, this_, a, b);
    WrapIsCongruent(a + b);
    WrapIsCongruent(a - b);
    WrapIsCongruent(a * b);
  }

  ghost predicate IsCongruent(n: int, exact: int) {
    exists k: int :: n == exact - k * 0x1_0000_0000_0000_0000
  }

  lemma WrapIsCongruent(n: int)
    ensures IsCongruent(Wrap(n), n)
  {
    hide Wrapped;
    var k := WrappedBy(n, TWO_63);
    assert Wrap(n) == n - k * 0x1_0000_0000_0000_0000;
  }

  /** Subtracting takes back adding, and adding takes back subtracting, overflows included. */
  lemma SubtractionUndoesAddition(host: Host, x: Node, y: Node, this_: Option<Value>, a: Long, b: Long)
    requires IsInt(host, x, this_, a) && IsInt(host, y, this_, b)
    ensures IsInt(host, Binary(Subtract, Binary(Add, x, y), y), this_, a)
    ensures IsInt(host, Binary(Add, Binary(Subtract, x, y), y), this_, a)
  {
    hide Meaning, Wrapped;
    ArithmeticMeans(host, Add, x, y, this_, a, b);
    ArithmeticMeans(host, Subtract, x, y, this_, a, b);
    ArithmeticMeans(host, Subtract, Binary(Add, x, y), y, this_, Wrap(a + b), b);
    ArithmeticMeans(host, Add, Binary(Subtract, x, y), y, this_, Wrap(a - b), b);
    var m: int := b;
    WrappedSummand(-m, a + m, TWO_63);
    WrappedSummand(m, a - m, TWO_63);
    InRange(a);
  }

  /** Quotient and remainder: the remainder is the smaller one with the sign of the dividend. One quotient overflows. */
  lemma QuotientAndRemainder(host: Host, x: Node, y: Node, this_: Option<Value>, a: Long, b: Long)
    requires IsInt(host, x, this_, a) && IsInt(host, y, this_, b)
    ensures var quotient, remainder := Meaning(host, Binary(Divide, x, y), this_),
        Meaning(host, Binary(Modulo, x, y), this_);
      if b == 0 then quotient == V.Err(EVALUATION) && remainder == V.Err(EVALUATION)
      else
        && quotient.Ok? && quotient.value.Int? && remainder.Ok? && remainder.value.Int?
        && var q, r := quotient.value.number, remainder.value.number;
           && (if a < 0 then r <= 0 else r >= 0) && Magnitude(r) < Magnitude(b)
           && (if a == -TWO_63 && b == -1 then q == a && r == 0 else q * b + r == a)
  {
    hide Meaning, IsInt, TruncatedQuotient, TruncatedRemainder, Wrapped;
    ArithmeticMeans(host, Divide, x, y, this_, a, b);
    ArithmeticMeans(host, Modulo, x, y, this_, a, b);
    if b != 0 {
      DivisionTruncates(a, b);
      QuotientFits(a, b);
      var q, r := TruncatedQuotient(a, b), TruncatedRemainder(a, b);
      InRange(r);
      if a == -TWO_63 && b == -1 {
        OneOverflow(q, r);
      }
    }
  }

  lemma OneOverflow(q: int, r: int)
    requires r == -TWO_63 + q && Magnitude(r) < 1
    ensures q == TWO_63 && Wrap(q) == -TWO_63 && r == 0
  {
  }

  /** `-x` is `0 - x`. */
  lemma NegationIsSubtraction(host: Host, x: Node, this_: Option<Value>, a: Long)
    requires IsInt(host, x, this_, a)
    ensures Meaning(host, Unary(Negate, x), this_) == Meaning(host, Binary(Subtract, S.Int(0), x), this_)
  {
    hide Evaluate, Wrapped;
    DepthIsIrrelevant(host, x, this_, 1);
    NegationMeans(host, x, this_);
    NumberMeans(host, 0, this_);
    ArithmeticMeans(host, Subtract, S.Int(0), x, this_, 0, a);
  }

  /** In arithmetic with numbers, true is 1 and false is 0. */
  lemma BooleansCount(host: Host, operator: BinaryOperator, b: bool, y: Node, this_: Option<Value>, n: Long)
    requires IsInt(host, y, this_, n) && IsArithmetic(operator)
    ensures var digit := S.Int(if b then 1 else 0);
      && Meaning(host, Binary(operator, S.Bool(b), y), this_) == Meaning(host, Binary(operator, digit, y), this_)
      && Meaning(host, Binary(operator, y, S.Bool(b)), this_) == Meaning(host, Binary(operator, y, digit), this_)
  {
    hide Meaning, Arithmetic;
    var digit := S.Int(if b then 1 else 0);
    NumberMeans(host, if b then 1 else 0, this_);
    BooleanMeans(host, b, this_);
    BinaryMeans(host, operator, S.Bool(b), y, this_);
    BinaryMeans(host, operator, digit, y, this_);
    BinaryMeans(host, operator, y, S.Bool(b), this_);
    BinaryMeans(host, operator, y, digit, this_);
  }

  lemma BooleanMeans(host: Host, b: bool, this_: Option<Value>)
    ensures Meaning(host, S.Bool(b), this_) == Ok(V.Bool(b))
  {
  }

  /** Adding to a text, or a text, joins the texts of both. */
  lemma TextsAreJoined(host: Host, x: Node, y: Node, this_: Option<Value>)
    requires var a, b := Meaning(host, x, this_), Meaning(host, y, this_);
      a.Ok? && b.Ok? && (a.value.Str? || b.value.Str?)
    ensures Meaning(host, Binary(Add, x, y), this_)
         == Ok(V.Str(host.display(Meaning(host, x, this_).value) + host.display(Meaning(host, y, this_).value)))
  {
    hide Meaning;
    BinaryMeans(host, Add, x, y, this_);
  }

  // Comparisons.

  /** Each comparison is the opposite of another, errors included. */
  lemma ComparisonsAreOpposite(host: Host, x: Node, y: Node, this_: Option<Value>)
    ensures Meaning(host, Binary(GreaterOrEqual, x, y), this_)
         == Meaning(host, Unary(Not, Binary(Less, x, y)), this_)
    ensures Meaning(host, Binary(Greater, x, y), this_)
         == Meaning(host, Unary(Not, Binary(LessOrEqual, x, y)), this_)
    ensures Meaning(host, Binary(NotEqual, x, y), this_)
         == Meaning(host, Unary(Not, Binary(Equal, x, y)), this_)
  {
    hide Meaning, Compare, Equals;
    BinaryMeans(host, GreaterOrEqual, x, y, this_);
    BinaryMeans(host, Less, x, y, this_);
    BinaryMeans(host, Greater, x, y, this_);
    BinaryMeans(host, LessOrEqual, x, y, this_);
    BinaryMeans(host, NotEqual, x, y, this_);
    BinaryMeans(host, Equal, x, y, this_);
    OppositeMeans(host, Binary(Less, x, y), this_);
    OppositeMeans(host, Binary(LessOrEqual, x, y), this_);
    OppositeMeans(host, Binary(Equal, x, y), this_);
  }

  lemma OppositeMeans(host: Host, x: Node, this_: Option<Value>)
    ensures var value := Meaning(host, x, this_);
      && (value.Err? ==> Meaning(host, Unary(Not, x), this_) == value)
      && (value.Ok? && value.value.Bool? ==>
            Meaning(host, Unary(Not, x), this_) == Ok(V.Bool(!value.value.truth)))
  {
    hide Evaluate;
    DepthIsIrrelevant(host, x, this_, 1);
    NotUnfolds(host, x, this_, 0);
  }

  /** What is not two texts is in the order of the host. */
  lemma OrderIsOfHost(host: Host, x: Node, y: Node, this_: Option<Value>, a: Value, b: Value)
    requires Meaning(host, x, this_) == Ok(a) && Meaning(host, y, this_) == Ok(b) && !(a.Str? && b.Str?)
    ensures match host.compareNumbers(a, b)
            case Err(error) =>
              && Meaning(host, Binary(Less, x, y), this_) == V.Err(error)
              && Meaning(host, Binary(LessOrEqual, x, y), this_) == V.Err(error)
            case Ok(order) =>
              && Meaning(host, Binary(Less, x, y), this_) == Ok(V.Bool(order < 0))
              && Meaning(host, Binary(LessOrEqual, x, y), this_) == Ok(V.Bool(order <= 0))
              && Meaning(host, Binary(Greater, x, y), this_) == Ok(V.Bool(order > 0))
              && Meaning(host, Binary(GreaterOrEqual, x, y), this_) == Ok(V.Bool(order >= 0))
  {
    hide Meaning;
    BinaryMeans(host, Less, x, y, this_);
    BinaryMeans(host, LessOrEqual, x, y, this_);
    BinaryMeans(host, Greater, x, y, this_);
    BinaryMeans(host, GreaterOrEqual, x, y, this_);
  }

  /** A text is less than a longer one that begins with it, and than one with a greater first other character. */
  lemma {:induction false} FirstDifferenceDecides(host: Host, common: string, c: char, a: string, d: char, b: string)
    ensures IsLess(host, common, common + [c] + a)
    ensures c < d ==> IsLess(host, common + [c] + a, common + [d] + b)
  {
    hide CompareTexts, IsLess;
    LessCompares(host, common, common + [c] + a);
    LessCompares(host, common + [c] + a, common + [d] + b);
    FirstDifference(common, c, a, d, b);
  }

  lemma {:induction false} FirstDifference(common: string, c: char, a: string, d: char, b: string)
    ensures CompareTexts(common, common + [c] + a) < 0
    ensures c < d ==> CompareTexts(common + [c] + a, common + [d] + b) < 0
  {
    if common != "" {
      assert (common + [c] + a)[1..] == common[1..] + [c] + a;
      assert (common + [d] + b)[1..] == common[1..] + [d] + b;
      FirstDifference(common[1..], c, a, d, b);
    }
  }

  // Equality and truth.

  /** But for floating point numbers, values are the same only if they are identical. */
  lemma {:induction false} SameIsIdentical(host: Host, a: Value, b: Value)
    requires IsFloatFree(a) && IsFloatFree(b)
    ensures Same(host, a, b) <==> a == b
    decreases a
  {
    if a.List? && b.List? && |a.items| == |b.items| {
      forall i | 0 <= i < |a.items|
        ensures Same(host, a.items[i], b.items[i]) <==> a.items[i] == b.items[i]
      {
        SameIsIdentical(host, a.items[i], b.items[i]);
      }
    }
    if a.Map? && b.Map? && a.entries.Keys == b.entries.Keys {
      forall k | k in a.entries
        ensures Same(host, a.entries[k], b.entries[k]) <==> a.entries[k] == b.entries[k]
      {
        SameIsIdentical(host, a.entries[k], b.entries[k]);
      }
      assert (forall k | k in a.entries :: a.entries[k] == b.entries[k]) ==> a.entries == b.entries;
    }
  }

  /** A text equals the number that it is read as, all else equals what is identical to it. */
  lemma EqualityDecides(host: Host, x: Node, y: Node, this_: Option<Value>, a: Value, b: Value)
    requires Meaning(host, x, this_) == Ok(a) && Meaning(host, y, this_) == Ok(b) && IsFloatFree(a) && IsFloatFree(b)
    ensures var equal := Meaning(host, Binary(Equal, x, y), this_);
      && (a.Str? && b.Int? ==> equal == Ok(V.Bool(host.parseLong(a.text) == Some(b.number))))
      && (a.Int? && b.Str? ==> equal == Ok(V.Bool(host.parseLong(b.text) == Some(a.number))))
      && (!(a.Str? && b.Int?) && !(a.Int? && b.Str?) ==> equal == Ok(V.Bool(a == b)))
  {
    hide Meaning, Same;
    BinaryMeans(host, Equal, x, y, this_);
    SameIsIdentical(host, a, b);
  }

  predicate SpellsTrue(text: string) {
    |text| == 4 && text[0] in {'t', 'T'} && text[1] in {'r', 'R'} && text[2] in {'u', 'U'} && text[3] in {'e', 'E'}
  }

  predicate SpellsFalse(text: string) {
    && |text| == 5 && text[0] in {'f', 'F'} && text[1] in {'a', 'A'} && text[2] in {'l', 'L'}
    && text[3] in {'s', 'S'} && text[4] in {'e', 'E'}
  }

  /** Which values are conditions: booleans, null, and the texts that spell a boolean. */
  lemma ConditionsChoose(host: Host, x: Node, then_: Node, otherwise: Node, this_: Option<Value>, a: Value)
    requires Meaning(host, x, this_) == Ok(a)
    ensures Meaning(host, Ternary(x, then_, otherwise), this_)
         == if a == V.Bool(true) || (a.Str? && SpellsTrue(a.text)) then Meaning(host, then_, this_)
            else if a == V.Null || a == V.Bool(false) || (a.Str? && SpellsFalse(a.text)) then
              Meaning(host, otherwise, this_)
            else V.Err(EVALUATION)
  {
    hide Evaluate, EqualIgnoreCase;
    DepthIsIrrelevant(host, x, this_, 1);
    DepthIsIrrelevant(host, then_, this_, 1);
    DepthIsIrrelevant(host, otherwise, this_, 1);
    SpelLaws.TernaryUnfolds(host, x, then_, otherwise, this_);
    if a.Str? {
      BooleanWords(a.text);
    }
  }

  lemma BooleanWords(text: string)
    ensures EqualIgnoreCase(text, "true") <==> SpellsTrue(text)
    ensures EqualIgnoreCase(text, "false") <==> SpellsFalse(text)
  {
    hide Ascii.LowerCase;
    LowerLetters();
    if |text| == 4 {
      assert forall i :: 0 <= i < 4 ==> Ascii.LowerCase("true"[i]) == "true"[i];
      assert EqualIgnoreCase(text, "true")
        <==> (&& Ascii.LowerCase(text[0]) == "true"[0] && Ascii.LowerCase(text[1]) == "true"[1]
              && Ascii.LowerCase(text[2]) == "true"[2] && Ascii.LowerCase(text[3]) == "true"[3]);
    }
    if |text| == 5 {
      assert forall i :: 0 <= i < 5 ==> Ascii.LowerCase("false"[i]) == "false"[i];
      assert EqualIgnoreCase(text, "false")
        <==> (&& Ascii.LowerCase(text[0]) == "false"[0] && Ascii.LowerCase(text[1]) == "false"[1]
              && Ascii.LowerCase(text[2]) == "false"[2] && Ascii.LowerCase(text[3]) == "false"[3]
              && Ascii.LowerCase(text[4]) == "false"[4]);
    }
  }

  lemma LowerLetters()
    ensures forall c: char | Ascii.LowerCase(c) != c :: Ascii.LowerCase(c) as int == c as int + 32
    ensures forall c: char | 'a' <= c <= 'z' :: Ascii.LowerCase(c) == c
    ensures forall c: char | 'A' <= c <= 'Z' :: Ascii.LowerCase(c) as int == c as int + 32
  {
  }

  // The item at hand.

  function Items(value: Value): seq<Value> {
    if value.List? then value.items else if value.Null? then [] else [value]
  }

  lemma {:induction false} ThisIsItem(host: Host, items: seq<Value>, name: string, depth: nat)
    requires name == "this" || name == "root"
    ensures ProjectAll(host, items, Variable(name), depth, None) == Ok(items)
    ensures SelectAll(host, items, Variable(name), depth, None).Ok?
  {
    hide IsTruthy;
    if items != [] {
      ThisIsItem(host, items[1..], name, depth);
      assert items == [items[0]] + items[1..];
    }
  }

  /** Projecting every item to itself gives the items: those of a list, none of null, and else the value alone. */
  lemma ProjectedToItself(host: Host, x: Node, name: string, this_: Option<Value>, a: Value)
    requires Meaning(host, x, this_) == Ok(a) && (name == "this" || name == "root")
    ensures Meaning(host, Projection(x, Variable(name)), this_) == Ok(V.List(Items(a)))
  {
    hide ProjectAll, SelectAll;
    DepthIsIrrelevant(host, x, this_, 1);
    ThisIsItem(host, Items(a), name, 1);
  }

  /** Selecting by the item itself drops null, false, zero and whatever is empty, and nothing else. */
  lemma KeptItems(host: Host, x: Node, this_: Option<Value>, a: Value) returns (places: seq<nat>)
    requires Meaning(host, x, this_) == Ok(a)
    ensures var kept := Meaning(host, Selection(x, Variable("this")), this_);
      && kept.Ok? && kept.value.List? && ArePlaces(Items(a), kept.value.items, places)
    ensures forall k: nat | k < |Items(a)| && !Items(a)[k].Float? ::
      k in places <==>
        Items(a)[k] !in {V.Null, V.Bool(false), V.Int(0), V.Str(""), V.List([]), V.Map(map[])}
    ensures forall k: nat | k < |Items(a)| && Items(a)[k].Float? ::
      k in places <==> host.floatTruthy(Items(a)[k].bits)
  {
    hide Evaluate, SelectAll, ArePlaces, IsTruthy;
    var items := Items(a);
    DepthIsIrrelevant(host, x, this_, 1);
    SelectionUnfolds(host, x, Variable("this"), this_);
    ThisIsItem(host, items, "this", 1);
    places := SelectionKeepsTruthy(host, items, Variable("this"), 1, None);
    forall k: nat | k < |items| && !items[k].Float?
      ensures k in places <==>
        items[k] !in {V.Null, V.Bool(false), V.Int(0), V.Str(""), V.List([]), V.Map(map[])}
    {
      ItselfIsSelected(host, items[k]);
    }
    forall k: nat | k < |items| && items[k].Float?
      ensures k in places <==> host.floatTruthy(items[k].bits)
    {
      ItselfIsSelected(host, items[k]);
    }
  }

  lemma ItselfIsSelected(host: Host, item: Value)
    ensures IsSelected(host, item, Variable("this"), 1, None)
       <==> if item.Float? then host.floatTruthy(item.bits)
            else item !in {V.Null, V.Bool(false), V.Int(0), V.Str(""), V.List([]), V.Map(map[])}
  {
  }

  // Properties and methods.

  lemma MemberMeans(host: Host, x: Node, name: string, this_: Option<Value>, a: Value)
    requires Meaning(host, x, this_) == Ok(a) && !a.Null? && !x.Type?
    ensures Meaning(host, Property(x, name, false), this_) == ReadProperty(host, a, name)
    ensures Meaning(host, Call(Some(x), name, [], false), this_) == CallMethod(host, a, name, [])
  {
    hide ReadProperty, CallMethod;
    DepthIsIrrelevant(host, x, this_, 1);
    assert EvaluateAll(host, [], this_, 1, None) == Ok([]);
  }

  /** The size of a list, by any of its names, counts its items. */
  lemma SizesOfList(host: Host, x: Node, this_: Option<Value>, items: seq<Value>, name: string)
    requires Meaning(host, x, this_) == Ok(V.List(items)) && |items| < TWO_63 && !x.Type?
    requires name == "size" || name == "length"
    ensures Meaning(host, Property(x, name, false), this_) == Ok(V.Int(|items|))
    ensures Meaning(host, Call(Some(x), name, [], false), this_) == Ok(V.Int(|items|))
    ensures Meaning(host, Property(x, "empty", false), this_) == Ok(V.Bool(|items| == 0))
    ensures Meaning(host, Call(Some(x), "isEmpty", [], false), this_) == Ok(V.Bool(|items| == 0))
    ensures Meaning(host, Call(Some(x), "stream", [], false), this_) == Meaning(host, x, this_)
  {
    hide Meaning;
    InRange(|items|);
    MemberMeans(host, x, name, this_, V.List(items));
    MemberMeans(host, x, "empty", this_, V.List(items));
    MemberMeans(host, x, "isEmpty", this_, V.List(items));
    MemberMeans(host, x, "stream", this_, V.List(items));
  }

  lemma SizesOfText(host: Host, x: Node, this_: Option<Value>, text: string)
    requires Meaning(host, x, this_) == Ok(V.Str(text)) && |text| < TWO_63 && !x.Type?
    ensures Meaning(host, Property(x, "length", false), this_) == Ok(V.Int(|text|))
    ensures Meaning(host, Property(x, "empty", false), this_) == Ok(V.Bool(|text| == 0))
  {
    hide Meaning;
    InRange(|text|);
    MemberMeans(host, x, "length", this_, V.Str(text));
    MemberMeans(host, x, "empty", this_, V.Str(text));
  }

  /** A property of a map is what indexing by its name gives. */
  lemma PropertyIsEntry(host: Host, x: Node, name: string, this_: Option<Value>)
    requires host.display(V.Str(name)) == name
    requires Meaning(host, x, this_).Ok? && Meaning(host, x, this_).value.Map? && !x.Type?
    ensures Meaning(host, Property(x, name, false), this_) == Meaning(host, Index(x, S.Str(name)), this_)
  {
    hide Meaning;
    MemberMeans(host, x, name, this_, Meaning(host, x, this_).value);
    TextMeans(host, name, this_);
    IndexMeans(host, x, S.Str(name), this_);
  }

  predicate Holds(host: Host, items: seq<Value>, value: Value) {
    exists i :: 0 <= i < |items| && Equals(host, items[i], value)
  }

  lemma ContainsOne(host: Host, items: seq<Value>, value: Value)
    ensures ListMethod(host, items, "contains", [value]) == Ok(V.Bool(Holds(host, items, value)))
  {
    hide Equals;
  }

  /** A list contains all of another if it contains each. */
  lemma ContainsEach(host: Host, items: seq<Value>, others: seq<Value>)
    ensures ListMethod(host, items, "containsAll", [V.List(others)])
         == Ok(V.Bool(forall j | 0 <= j < |others| ::
              ListMethod(host, items, "contains", [others[j]]) == Ok(V.Bool(true))))
  {
    hide Equals;
    forall j | 0 <= j < |others|
      ensures ListMethod(host, items, "contains", [others[j]]) == Ok(V.Bool(Holds(host, items, others[j])))
    {
      ContainsOne(host, items, others[j]);
    }
    ContainsAll(host, items, V.List(others));
    assert AsList(V.List(others)) == others;
  }

  lemma ContainsAll(host: Host, items: seq<Value>, argument: Value)
    ensures var contained := ListMethod(host, items, "containsAll", [argument]);
      && contained.Ok? && contained.value.Bool?
      && (contained.value.truth <==>
            forall j | 0 <= j < |AsList(argument)| :: Holds(host, items, AsList(argument)[j]))
  {
    hide Equals, AsList;
    var contained := ListMethod(host, items, "containsAll", [argument]);
    assert [argument][0] == argument;
    if contained.value.truth {
      forall j | 0 <= j < |AsList(argument)|
        ensures Holds(host, items, AsList(argument)[j])
      {
        var other := AsList(argument)[j];
        assert exists i :: 0 <= i < |items| && Equals(host, items[i], other);
      }
    } else {
      var j :| 0 <= j < |AsList(argument)|
            && !exists i :: 0 <= i < |items| && Equals(host, items[i], AsList(argument)[j]);
      assert !Holds(host, items, AsList(argument)[j]);
    }
  }
}
