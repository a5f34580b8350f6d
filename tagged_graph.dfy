/** Tagged traversal of a foreground database and aggregation of its impacts
    by tag (`recurse_tagged_database` and `aggregate_tagged_graph`). The
    database is a list of activities whose technosphere exchanges point at
    other activities by position; the LCA score of a leaf and the
    characterisation factors of biosphere flows are parameters. */
module TaggedGraph {
  import opened Common
  import opened Matrices

  /** The data fields of an activity or an exchange (`x.get(key)`). */
  type Fields = map<string, string>

  /** `x.get(key)`: the field's value, None when absent; `x.get(None)` is None. */
  function Get(f: Fields, key: Option<string>): Option<string>
  {
    if key.Some? && key.value in f then Some(f[key.value]) else None
  }

  datatype Exchange = Exchange(input: nat, amount: real, fields: Fields)

  datatype Activity = Activity(fields: Fields, technosphere: seq<Exchange>, biosphere: seq<Exchange>)

  /** Every technosphere exchange names an activity of the database. */
  predicate Closed(db: seq<Activity>)
  {
    forall a, k :: 0 <= a < |db| && 0 <= k < |db[a].technosphere| ==> db[a].technosphere[k].input < |db|
  }

  /** A Python number: the literal `0` of an expanded node stays an `int`;
      LCA scores and flow impacts are floats. */
  datatype Number = Int(i: int) | Float(f: real)

  function Value(x: Number): real
  {
    match x
    case Int(i) => i as real
    case Float(f) => f
  }

  /** Python `+` on numbers: int + int is an int, anything with a float a float. */
  function Plus(x: Number, y: Number): (r: Number)
    ensures Value(r) == Value(x) + Value(y)
    ensures r.Int? <==> x.Int? && y.Int?
  {
    if x.Int? && y.Int? then Int(x.i + y.i) else Float(Value(x) + Value(y))
  }

  /** One entry of a node's `biosphere` list. */
  datatype Flow = Flow(amount: real, impact: Number, tag: Option<string>, secondaryTag: Option<string>)

  /** The dictionary `recurse_tagged_database` returns for one activity. */
  datatype Node = Node(activity: nat, amount: real, tag: Option<string>, secondaryTag: Option<string>,
                       impact: Number, biosphere: seq<Flow>, technosphere: seq<Node>)

  /** `label`, the secondary label `secondary_tag[0]` and `method_dict`. */
  datatype Settings = Settings(labelKey: string, secondaryKey: Option<string>, factors: map<nat, real>)

  /** `method_dict.get(flow, 0)`. */
  function Factor(s: Settings, flow: nat): real
  {
    if flow in s.factors then s.factors[flow] else 0.0
  }

  /** The traversal goes on below an activity only while depth remains and
      the activity carries the label. */
  predicate Expands(a: Activity, s: Settings, depth: int)
  {
    depth > 0 && Get(a.fields, Some(s.labelKey)).Some?
  }

  /** The tag handed down through an exchange: the exchange's label, else the
      activity's, else the tag inherited from above. */
  function InheritedTag(a: Activity, e: Exchange, s: Settings, tag: Option<string>): Option<string>
  {
    Or(Get(e.fields, Some(s.labelKey)), Or(Get(a.fields, Some(s.labelKey)), tag))
  }

  function InheritedSecondary(a: Activity, e: Exchange, s: Settings, secondary: Option<string>): Option<string>
  {
    Or(Get(e.fields, s.secondaryKey), Or(Get(a.fields, s.secondaryKey), secondary))
  }

  /** The amount handed down through an exchange, `exc['amount'] * amount`. */
  function ChildAmount(e: Exchange, amount: real): real
  {
    e.amount * amount
  }

  function BioFlow(a: Activity, e: Exchange, amount: real, s: Settings, tag: Option<string>, secondary: Option<string>): Flow
  {
    Flow(ChildAmount(e, amount), Float(ChildAmount(e, amount) * Factor(s, e.input)),
         InheritedTag(a, e, s, tag), InheritedSecondary(a, e, s, secondary))
  }

  /** recurse_tagged_database: an expanded activity has impact 0, its
      biosphere flows and one child per technosphere exchange, with depth one
      less; any other activity is a leaf scored by the LCA. */
  function Recurse(db: seq<Activity>, act: nat, amount: real, score: (nat, real) -> real, s: Settings,
                   defaultTag: Option<string>, secondaryDefault: Option<string>, depth: int): (r: Node)
    requires Closed(db) && act < |db|
    ensures r.activity == act && r.amount == amount
    ensures r.tag == Or(Get(db[act].fields, Some(s.labelKey)), defaultTag)
    ensures r.secondaryTag == Or(Get(db[act].fields, s.secondaryKey), secondaryDefault)
    ensures Expands(db[act], s, depth) ==>
      r.impact == Int(0) && |r.biosphere| == |db[act].biosphere| && |r.technosphere| == |db[act].technosphere|
    ensures !Expands(db[act], s, depth) ==>
      r.impact == Float(score(act, amount)) && r.biosphere == [] && r.technosphere == []
    decreases depth
  {
    var a := db[act];
    var tag := Or(Get(a.fields, Some(s.labelKey)), defaultTag);
    var secondary := Or(Get(a.fields, s.secondaryKey), secondaryDefault);
    if Expands(a, s, depth) then
      Node(act, amount, tag, secondary, Int(0),
        seq(|a.biosphere|, k requires 0 <= k < |a.biosphere| =>
          BioFlow(a, a.biosphere[k], amount, s, defaultTag, secondaryDefault)),
        seq(|a.technosphere|, k requires 0 <= k < |a.technosphere| =>
          Recurse(db, a.technosphere[k].input, ChildAmount(a.technosphere[k], amount), score, s,
                  InheritedTag(a, a.technosphere[k], s, defaultTag),
                  InheritedSecondary(a, a.technosphere[k], s, secondaryDefault), depth - 1)))
    else
      Node(act, amount, tag, secondary, Float(score(act, amount)), [], [])
  }

  /** Child k of an expanded activity is the traversal of exchange k's input. */
  lemma RecurseChild(db: seq<Activity>, act: nat, amount: real, score: (nat, real) -> real, s: Settings,
                     defaultTag: Option<string>, secondaryDefault: Option<string>, depth: int, k: nat)
    requires Closed(db) && act < |db| && Expands(db[act], s, depth) && k < |db[act].technosphere|
    ensures db[act].technosphere[k].input < |db|
    ensures Recurse(db, act, amount, score, s, defaultTag, secondaryDefault, depth).technosphere[k]
         == Recurse(db, db[act].technosphere[k].input, ChildAmount(db[act].technosphere[k], amount), score, s,
                    InheritedTag(db[act], db[act].technosphere[k], s, defaultTag),
                    InheritedSecondary(db[act], db[act].technosphere[k], s, secondaryDefault), depth - 1)
  {
  }

  /** Flow k of an expanded activity is built from biosphere exchange k. */
  lemma RecurseFlows(db: seq<Activity>, act: nat, amount: real, score: (nat, real) -> real, s: Settings,
                     defaultTag: Option<string>, secondaryDefault: Option<string>, depth: int)
    requires Closed(db) && act < |db| && Expands(db[act], s, depth)
    ensures forall k :: 0 <= k < |db[act].biosphere| ==>
      Recurse(db, act, amount, score, s, defaultTag, secondaryDefault, depth).biosphere[k]
      == BioFlow(db[act], db[act].biosphere[k], amount, s, defaultTag, secondaryDefault)
  {
  }

  // ---------------------------------------------------------------------------
  // Properties of the traversal

  /** No path from the node descends more than h levels. */
  predicate HeightAtMost(node: Node, h: int)
    decreases node
  {
    |node.technosphere| == 0
    || (h > 0 && forall k :: 0 <= k < |node.technosphere| ==> HeightAtMost(node.technosphere[k], h - 1))
  }

  lemma {:induction false} TraversalDepth(db: seq<Activity>, act: nat, amount: real, score: (nat, real) -> real, s: Settings,
                                          defaultTag: Option<string>, secondaryDefault: Option<string>, depth: int)
    requires Closed(db) && act < |db|
    ensures HeightAtMost(Recurse(db, act, amount, score, s, defaultTag, secondaryDefault, depth), depth)
    decreases depth
  {
    var r := Recurse(db, act, amount, score, s, defaultTag, secondaryDefault, depth);
    var a := db[act];
    if Expands(a, s, depth) {
      forall k | 0 <= k < |r.technosphere| ensures HeightAtMost(r.technosphere[k], depth - 1) {
        var e := a.technosphere[k];
        RecurseChild(db, act, amount, score, s, defaultTag, secondaryDefault, depth, k);
        TraversalDepth(db, e.input, ChildAmount(e, amount), score, s,
                       InheritedTag(a, e, s, defaultTag), InheritedSecondary(a, e, s, secondaryDefault), depth - 1);
      }
    }
  }

  /** Amounts scale down one level: a child's amount is its exchange's
      amount times the parent's, and a flow's impact is its amount times the
      characterisation factor of the flow. */
  predicate ScalesDown(db: seq<Activity>, s: Settings, node: Node)
  {
    node.activity < |db|
    && (|node.biosphere| == 0 || |node.biosphere| == |db[node.activity].biosphere|)
    && (|node.technosphere| == 0 || |node.technosphere| == |db[node.activity].technosphere|)
    && (forall k :: 0 <= k < |node.biosphere| ==>
          node.biosphere[k].amount == ChildAmount(db[node.activity].biosphere[k], node.amount)
          && Value(node.biosphere[k].impact) == node.biosphere[k].amount * Factor(s, db[node.activity].biosphere[k].input))
    && (forall k :: 0 <= k < |node.technosphere| ==>
          node.technosphere[k].activity == db[node.activity].technosphere[k].input
          && node.technosphere[k].amount == ChildAmount(db[node.activity].technosphere[k], node.amount))
  }

  /** Amounts scale down at every level of the tree. */
  predicate Propagated(db: seq<Activity>, s: Settings, node: Node)
    decreases node
  {
    ScalesDown(db, s, node)
    && forall k :: 0 <= k < |node.technosphere| ==> Propagated(db, s, node.technosphere[k])
  }

  lemma LevelScalesDown(db: seq<Activity>, act: nat, amount: real, score: (nat, real) -> real, s: Settings,
                        defaultTag: Option<string>, secondaryDefault: Option<string>, depth: int)
    requires Closed(db) && act < |db|
    ensures ScalesDown(db, s, Recurse(db, act, amount, score, s, defaultTag, secondaryDefault, depth))
  {
    var r := Recurse(db, act, amount, score, s, defaultTag, secondaryDefault, depth);
    var a := db[act];
    if Expands(a, s, depth) {
      RecurseFlows(db, act, amount, score, s, defaultTag, secondaryDefault, depth);
      forall k | 0 <= k < |r.technosphere|
        ensures r.technosphere[k].activity == a.technosphere[k].input
        ensures r.technosphere[k].amount == ChildAmount(a.technosphere[k], amount)
      {
        RecurseChild(db, act, amount, score, s, defaultTag, secondaryDefault, depth, k);
      }
    }
  }

  lemma {:induction false} AmountPropagation(db: seq<Activity>, act: nat, amount: real, score: (nat, real) -> real, s: Settings,
                                             defaultTag: Option<string>, secondaryDefault: Option<string>, depth: int)
    requires Closed(db) && act < |db|
    ensures Propagated(db, s, Recurse(db, act, amount, score, s, defaultTag, secondaryDefault, depth))
    decreases depth
  {
    var r := Recurse(db, act, amount, score, s, defaultTag, secondaryDefault, depth);
    var a := db[act];
    LevelScalesDown(db, act, amount, score, s, defaultTag, secondaryDefault, depth);
    if Expands(a, s, depth) {
      forall k | 0 <= k < |r.technosphere| ensures Propagated(db, s, r.technosphere[k]) {
        var e := a.technosphere[k];
        RecurseChild(db, act, amount, score, s, defaultTag, secondaryDefault, depth, k);
        AmountPropagation(db, e.input, ChildAmount(e, amount), score, s,
                          InheritedTag(a, e, s, defaultTag), InheritedSecondary(a, e, s, secondaryDefault), depth - 1);
      }
    }
  }

  /** Every tag in the tree, of a node or of a flow, is a non-empty string. */
  predicate TagsTruthy(node: Node)
    decreases node
  {
    Truthy(node.tag)
    && (forall k :: 0 <= k < |node.biosphere| ==> Truthy(node.biosphere[k].tag))
    && (forall k :: 0 <= k < |node.technosphere| ==> TagsTruthy(node.technosphere[k]))
  }

  /** With a non-empty default tag, the label inheritance never leaves a node
      or a flow untagged. */
  lemma {:induction false} TagInheritance(db: seq<Activity>, act: nat, amount: real, score: (nat, real) -> real, s: Settings,
                                          defaultTag: Option<string>, secondaryDefault: Option<string>, depth: int)
    requires Closed(db) && act < |db| && Truthy(defaultTag)
    ensures TagsTruthy(Recurse(db, act, amount, score, s, defaultTag, secondaryDefault, depth))
    decreases depth
  {
    var r := Recurse(db, act, amount, score, s, defaultTag, secondaryDefault, depth);
    var a := db[act];
    if Expands(a, s, depth) {
      RecurseFlows(db, act, amount, score, s, defaultTag, secondaryDefault, depth);
      forall k | 0 <= k < |r.technosphere| ensures TagsTruthy(r.technosphere[k]) {
        var e := a.technosphere[k];
        RecurseChild(db, act, amount, score, s, defaultTag, secondaryDefault, depth, k);
        TagInheritance(db, e.input, ChildAmount(e, amount), score, s,
                       InheritedTag(a, e, s, defaultTag), InheritedSecondary(a, e, s, secondaryDefault), depth - 1);
      }
    }
  }

  /** Every node of the tree has a secondary tag (p) or none has (!p). */
  predicate Uniform(node: Node, p: bool)
    decreases node
  {
    node.secondaryTag.Some? == p
    && forall k :: 0 <= k < |node.technosphere| ==> Uniform(node.technosphere[k], p)
  }

  /** Without a secondary label and default no node has a secondary tag; with
      a secondary default every node has one. */
  lemma {:induction false} SecondaryTagging(db: seq<Activity>, act: nat, amount: real, score: (nat, real) -> real, s: Settings,
                                            defaultTag: Option<string>, secondaryDefault: Option<string>, depth: int)
    requires Closed(db) && act < |db|
    requires secondaryDefault.Some? || s.secondaryKey.None?
    ensures Uniform(Recurse(db, act, amount, score, s, defaultTag, secondaryDefault, depth), secondaryDefault.Some?)
    decreases depth
  {
    var r := Recurse(db, act, amount, score, s, defaultTag, secondaryDefault, depth);
    var a := db[act];
    if Expands(a, s, depth) {
      forall k | 0 <= k < |r.technosphere| ensures Uniform(r.technosphere[k], secondaryDefault.Some?) {
        var e := a.technosphere[k];
        RecurseChild(db, act, amount, score, s, defaultTag, secondaryDefault, depth, k);
        SecondaryTagging(db, e.input, ChildAmount(e, amount), score, s,
                         InheritedTag(a, e, s, defaultTag), InheritedSecondary(a, e, s, secondaryDefault), depth - 1);
      }
    }
  }

  // ---------------------------------------------------------------------------
  // aggregate_tagged_graph

  /** A value of the `scores` defaultdict: a number, or a nested
      defaultdict keyed by secondary tag. */
  datatype Score = Number(n: Number) | Nested(parts: map<Option<string>, Number>)

  type Scores = map<Option<string>, Score>

  /** One `+=` of the recursor: an impact, its tag, and whether it goes under
      a secondary tag (decided by the node it belongs to). */
  datatype Entry = Entry(tag: Option<string>, nested: bool, secondary: Option<string>, impact: Number)

  /** The entries of a node itself: its own impact, then its biosphere flows. */
  function OwnEntries(node: Node): (r: seq<Entry>)
    ensures |r| == |node.biosphere| + 1
  {
    var nested := node.secondaryTag.Some?;
    [Entry(node.tag, nested, node.secondaryTag, node.impact)]
    + seq(|node.biosphere|, k requires 0 <= k < |node.biosphere| =>
        Entry(node.biosphere[k].tag, nested, node.biosphere[k].secondaryTag, node.biosphere[k].impact))
  }

  function Flatten(ss: seq<seq<Entry>>): seq<Entry>
  {
    if |ss| == 0 then [] else Flatten(ss[..|ss| - 1]) + ss[|ss| - 1]
  }

  function ChildEntries(node: Node): seq<seq<Entry>>
    decreases node, 0
  {
    seq(|node.technosphere|, k requires 0 <= k < |node.technosphere| => Entries(node.technosphere[k]))
  }

  /** The entries in the order the recursor adds them: the node, its flows,
      then each child's subtree. */
  function Entries(node: Node): seq<Entry>
    decreases node, 1
  {
    OwnEntries(node) + Flatten(ChildEntries(node))
  }

  function GraphEntries(graph: seq<Node>): seq<Entry>
  {
    Flatten(seq(|graph|, k requires 0 <= k < |graph| => Entries(graph[k])))
  }

  /** `scores[tag]` on a defaultdict(int). */
  function Current(scores: Scores, tag: Option<string>): Score
  {
    if tag in scores then scores[tag] else Number(Int(0))
  }

  function PartOf(parts: map<Option<string>, Number>, secondary: Option<string>): Number
  {
    if secondary in parts then parts[secondary] else Int(0)
  }

  /** One `+=`. Without a secondary tag a nested dictionary cannot be added to
      (TypeError); with one, an `int` score is replaced by a fresh nested
      dictionary while a `float` score cannot be indexed (TypeError). */
  function Add(scores: Scores, e: Entry): Result<Scores>
  {
    var cur := Current(scores, e.tag);
    if !e.nested then
      match cur
      case Nested(_) => Failure(TypeError)
      case Number(x) => Success(scores[e.tag := Number(Plus(x, e.impact))])
    else
      match cur
      case Number(Float(_)) => Failure(TypeError)
      case Number(Int(_)) => Success(scores[e.tag := Nested(map[e.secondary := Plus(Int(0), e.impact)])])
      case Nested(p) => Success(scores[e.tag := Nested(p[e.secondary := Plus(PartOf(p, e.secondary), e.impact)])])
  }

  /** The entries added in order; the first failure is the result. */
  function AddAll(scores: Scores, es: seq<Entry>): Result<Scores>
  {
    if |es| == 0 then Success(scores)
    else match AddAll(scores, es[..|es| - 1])
      case Failure(err) => Failure(err)
      case Success(t) => Add(t, es[|es| - 1])
  }

  function Continue(r: Result<Scores>, es: seq<Entry>): Result<Scores>
  {
    match r
    case Failure(err) => Failure(err)
    case Success(t) => AddAll(t, es)
  }

  lemma {:induction false} AddAllConcat(scores: Scores, a: seq<Entry>, b: seq<Entry>)
    ensures AddAll(scores, a + b) == Continue(AddAll(scores, a), b)
  {
    if |b| > 0 {
      var b' := b[..|b| - 1];
      assert (a + b)[..|a + b| - 1] == a + b';
      AddAllConcat(scores, a, b');
    } else {
      assert a + b == a;
    }
  }

  lemma {:induction false} FlattenSplit(ss: seq<seq<Entry>>, k: nat)
    requires k <= |ss|
    ensures Flatten(ss) == Flatten(ss[..k]) + Flatten(ss[k..])
    decreases |ss|
  {
    if k < |ss| {
      var n := |ss|;
      FlattenSplit(ss[..n - 1], k);
      assert ss[..n - 1][..k] == ss[..k];
      assert ss[k..][..|ss[k..]| - 1] == ss[..n - 1][k..];
    } else {
      assert ss[..k] == ss;
    }
  }

  /** The first half of the recursor: the node's own impact, then its
      biosphere flows, each under the node's secondary tag when it has one. */
  method AddOwn(obj: Node, scores: Scores) returns (r: Result<Scores>)
    ensures r == AddAll(scores, OwnEntries(obj))
  {
    var own := OwnEntries(obj);
    var nested := obj.secondaryTag.Some?;
    r := Add(scores, Entry(obj.tag, nested, obj.secondaryTag, obj.impact));
    assert own[..1] == [own[0]];
    assert AddAll(scores, own[..1]) == r;
    if r.Failure? {
      AddAllConcat(scores, own[..1], own[1..]);
      assert own[..1] + own[1..] == own;
      return;
    }
    var s := r.value;
    for k := 0 to |obj.biosphere|
      invariant AddAll(scores, own[..k + 1]) == Success(s)
    {
      var f := obj.biosphere[k];
      var step := Add(s, Entry(f.tag, nested, f.secondaryTag, f.impact));
      assert own[..k + 2][..k + 1] == own[..k + 1];
      if step.Failure? {
        AddAllConcat(scores, own[..k + 2], own[k + 2..]);
        assert own[..k + 2] + own[k + 2..] == own;
        return step;
      }
      s := step.value;
    }
    assert own[..|obj.biosphere| + 1] == own;
    return Success(s);
  }

  /** The recursor: adds the node's own impact and its flows, then recurses
      into its children, threading the `scores` dictionary. */
  method Recursor(obj: Node, scores: Scores) returns (r: Result<Scores>)
    ensures r == AddAll(scores, Entries(obj))
    decreases obj
  {
    var own := OwnEntries(obj);
    var children := ChildEntries(obj);
    AddAllConcat(scores, own, Flatten(children));
    r := AddOwn(obj, scores);
    if r.Failure? {
      return;
    }
    var s := r.value;
    assert own + Flatten(children[..0]) == own;
    for k := 0 to |children|
      invariant AddAll(scores, own + Flatten(children[..k])) == Success(s)
    {
      var c := Recursor(obj.technosphere[k], s);
      ChildStep(scores, own, children, k);
      if c.Failure? {
        ChildFailure(scores, own, children, k);
        return c;
      }
      s := c.value;
    }
    assert children[..|children|] == children;
    return Success(s);
  }

  lemma ChildStep(scores: Scores, own: seq<Entry>, children: seq<seq<Entry>>, k: nat)
    requires k < |children|
    ensures AddAll(scores, own + Flatten(children[..k + 1])) == Continue(AddAll(scores, own + Flatten(children[..k])), children[k])
  {
    assert children[..k + 1][..k] == children[..k];
    assert own + Flatten(children[..k + 1]) == (own + Flatten(children[..k])) + children[k];
    AddAllConcat(scores, own + Flatten(children[..k]), children[k]);
  }

  lemma ChildFailure(scores: Scores, own: seq<Entry>, children: seq<seq<Entry>>, k: nat)
    requires k < |children| && AddAll(scores, own + Flatten(children[..k + 1])).Failure?
    ensures AddAll(scores, own + Flatten(children)) == AddAll(scores, own + Flatten(children[..k + 1]))
  {
    FlattenSplit(children, k + 1);
    AddAllConcat(scores, own + Flatten(children[..k + 1]), Flatten(children[k + 1..]));
    assert own + Flatten(children) == (own + Flatten(children[..k + 1])) + Flatten(children[k + 1..]);
  }

  /** aggregate_tagged_graph: the recursor over every root, from an empty
      defaultdict. */
  method AggregateTaggedGraph(graph: seq<Node>) returns (r: Result<Scores>)
    ensures r == AddAll(map[], GraphEntries(graph))
  {
    ghost var roots := seq(|graph|, k requires 0 <= k < |graph| => Entries(graph[k]));
    var s: Scores := map[];
    for k := 0 to |graph|
      invariant AddAll(map[], Flatten(roots[..k])) == Success(s)
    {
      var c := Recursor(graph[k], s);
      assert roots[..k + 1][..k] == roots[..k];
      AddAllConcat(map[], Flatten(roots[..k]), roots[k]);
      if c.Failure? {
        FlattenSplit(roots, k + 1);
        AddAllConcat(map[], Flatten(roots[..k + 1]), Flatten(roots[k + 1..]));
        return c;
      }
      s := c.value;
    }
    assert roots[..|graph|] == roots;
    return Success(s);
  }

  // ---------------------------------------------------------------------------
  // Tag totals

  function Impacts(es: seq<Entry>): (r: Vector)
    ensures |r| == |es| && forall k :: 0 <= k < |es| ==> r[k] == Value(es[k].impact)
  {
    seq(|es|, k requires 0 <= k < |es| => Value(es[k].impact))
  }

  function Tags(es: seq<Entry>): (r: seq<Option<string>>)
    ensures |r| == |es| && forall k :: 0 <= k < |es| ==> r[k] == es[k].tag
  {
    seq(|es|, k requires 0 <= k < |es| => es[k].tag)
  }

  function TagPairs(es: seq<Entry>): (r: seq<(Option<string>, Option<string>)>)
    ensures |r| == |es| && forall k :: 0 <= k < |es| ==> r[k] == (es[k].tag, es[k].secondary)
  {
    seq(|es|, k requires 0 <= k < |es| => (es[k].tag, es[k].secondary))
  }

  /** The total recorded under a tag without secondary tags (0 when absent). */
  function Total(scores: Scores, tag: Option<string>): real
  {
    match Current(scores, tag)
    case Number(x) => Value(x)
    case Nested(_) => 0.0
  }

  /** The total recorded under a pair of tags (0 when absent). */
  function PairTotal(scores: Scores, tag: Option<string>, secondary: Option<string>): real
  {
    match Current(scores, tag)
    case Number(_) => 0.0
    case Nested(p) => Value(PartOf(p, secondary))
  }

  predicate AllFlat(es: seq<Entry>)
  {
    forall k :: 0 <= k < |es| ==> !es[k].nested
  }

  predicate AllNested(es: seq<Entry>)
  {
    forall k :: 0 <= k < |es| ==> es[k].nested
  }

  /** Without secondary tags the fold never fails, and each tag's score is the
      sum of the impacts carrying that tag: every impact is added once, under
      its own tag. */
  lemma {:induction false} FlatScores(es: seq<Entry>)
    requires AllFlat(es)
    ensures AddAll(map[], es).Success?
    ensures forall t :: t in AddAll(map[], es).value ==> AddAll(map[], es).value[t].Number?
    ensures forall t :: Total(AddAll(map[], es).value, t) == GroupSum(Impacts(es), Tags(es), t)
  {
    if |es| > 0 {
      var n := |es|;
      var init := es[..n - 1];
      FlatScores(init);
      assert Impacts(es)[..n - 1] == Impacts(init);
      assert Tags(es)[..n - 1] == Tags(init);
      assert !es[n - 1].nested;
    }
  }

  /** With secondary tags throughout, the fold never fails, and each pair of
      tags holds the sum of the impacts carrying that pair. */
  lemma {:induction false} NestedScores(es: seq<Entry>)
    requires AllNested(es)
    ensures AddAll(map[], es).Success?
    ensures forall t :: t in AddAll(map[], es).value ==> AddAll(map[], es).value[t].Nested?
    ensures forall t, u :: PairTotal(AddAll(map[], es).value, t, u) == GroupSum(Impacts(es), TagPairs(es), (t, u))
  {
    if |es| > 0 {
      var n := |es|;
      var init := es[..n - 1];
      NestedScores(init);
      assert Impacts(es)[..n - 1] == Impacts(init);
      assert TagPairs(es)[..n - 1] == TagPairs(init);
      assert es[n - 1].nested;
      var prev := AddAll(map[], init).value;
      var e := es[n - 1];
      forall t, u ensures PairTotal(AddAll(map[], es).value, t, u) == PairTotal(prev, t, u) + (if (e.tag, e.secondary) == (t, u) then Value(e.impact) else 0.0) {
      }
    }
  }

  /** Summed over distinct tags that cover every entry, the tag scores add up
      to the whole impact of the graph. */
  lemma FlatTagTotals(es: seq<Entry>, tags: seq<Option<string>>)
    requires AllFlat(es) && Distinct(tags)
    requires forall k :: 0 <= k < |es| ==> es[k].tag in tags
    ensures AddAll(map[], es).Success?
    ensures Sum(seq(|tags|, r requires 0 <= r < |tags| => Total(AddAll(map[], es).value, tags[r]))) == Sum(Impacts(es))
  {
    FlatScores(es);
    var sums := seq(|tags|, r requires 0 <= r < |tags| => Total(AddAll(map[], es).value, tags[r]));
    GroupSumsPartition(Impacts(es), Tags(es), tags, sums);
    CoveredSumAll(Impacts(es), Tags(es), tags);
  }

  // ---------------------------------------------------------------------------
  // From a traversal to its entries

  lemma {:induction false} FlattenMembers(ss: seq<seq<Entry>>, p: bool)
    requires forall r, k :: 0 <= r < |ss| && 0 <= k < |ss[r]| ==> ss[r][k].nested == p
    ensures forall k :: 0 <= k < |Flatten(ss)| ==> Flatten(ss)[k].nested == p
  {
    if |ss| > 0 {
      FlattenMembers(ss[..|ss| - 1], p);
    }
  }

  /** A tree whose nodes uniformly have (or lack) secondary tags yields entries
      that all go under secondary tags (or none do). */
  lemma {:induction false} UniformEntries(node: Node, p: bool)
    requires Uniform(node, p)
    ensures forall k :: 0 <= k < |Entries(node)| ==> Entries(node)[k].nested == p
    decreases node
  {
    var children: seq<seq<Entry>> := ChildEntries(node);
    forall r | 0 <= r < |children| ensures forall k :: 0 <= k < |children[r]| ==> children[r][k].nested == p {
      UniformEntries(node.technosphere[r], p);
      assert children[r] == Entries(node.technosphere[r]);
    }
    FlattenMembers(children, p);
  }

  lemma {:induction false} UniformGraph(graph: seq<Node>, p: bool)
    requires forall k :: 0 <= k < |graph| ==> Uniform(graph[k], p)
    ensures forall k :: 0 <= k < |GraphEntries(graph)| ==> GraphEntries(graph)[k].nested == p
  {
    var roots: seq<seq<Entry>> := seq(|graph|, k requires 0 <= k < |graph| => Entries(graph[k]));
    forall r | 0 <= r < |roots| ensures forall k :: 0 <= k < |roots[r]| ==> roots[r][k].nested == p {
      UniformEntries(graph[r], p);
    }
    FlattenMembers(roots, p);
  }

  /** Aggregating a graph traversed without secondary tags: the scores of
      distinct tags covering the graph add up to the sum of the impacts of
      every node and every biosphere flow. */
  lemma TagTotals(graph: seq<Node>, tags: seq<Option<string>>)
    requires forall k :: 0 <= k < |graph| ==> Uniform(graph[k], false)
    requires Distinct(tags)
    requires forall k :: 0 <= k < |GraphEntries(graph)| ==> GraphEntries(graph)[k].tag in tags
    ensures AddAll(map[], GraphEntries(graph)).Success?
    ensures Sum(seq(|tags|, r requires 0 <= r < |tags| => Total(AddAll(map[], GraphEntries(graph)).value, tags[r])))
         == Sum(Impacts(GraphEntries(graph)))
  {
    UniformGraph(graph, false);
    FlatTagTotals(GraphEntries(graph), tags);
  }

  /** Aggregating a graph traversed with a secondary default: every impact is
      added once under its pair of tags and nothing fails. */
  lemma SecondaryTotals(graph: seq<Node>)
    requires forall k :: 0 <= k < |graph| ==> Uniform(graph[k], true)
    ensures AddAll(map[], GraphEntries(graph)).Success?
    ensures forall t, u ::
      PairTotal(AddAll(map[], GraphEntries(graph)).value, t, u)
      == GroupSum(Impacts(GraphEntries(graph)), TagPairs(GraphEntries(graph)), (t, u))
  {
    UniformGraph(graph, true);
    NestedScores(GraphEntries(graph));
  }
}
