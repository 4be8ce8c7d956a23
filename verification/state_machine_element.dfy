/**
 * The `statemachine` markup element: the attribute algebra its states use
 * while blending (scale by a weight, then merge), and the thin state machine
 * wrapper that answers `hasTrigger` and holds the delegate.
 *
 * An attribute set maps each attribute name to an ordered list of value
 * components. Only a component's coefficient takes part in the algebra; the
 * rest of a component is carried along untouched and is a type parameter `P`.
 */
module StateMachineElement {

  datatype Option<T> = None | Some(value: T)

  /** One weighted component of an attribute value. */
  datatype ValueComponent<P> = ValueComponent(coefficient: real, rest: P)

  type AttributeMap<P> = map<string, seq<ValueComponent<P>>>

  // ---------------------------------------------------------------------
  // Scaling

  function ScaleComponent<P>(c: ValueComponent<P>, k: real): ValueComponent<P>
  {
    c.(coefficient := c.coefficient * k)
  }

  /**
   * A component list with every coefficient multiplied by `k`: same length,
   * same order, the non-coefficient part of each component unchanged.
   */
  function ScaleComponents<P>(s: seq<ValueComponent<P>>, k: real): (r: seq<ValueComponent<P>>)
    ensures |r| == |s|
    ensures forall i :: 0 <= i < |s| ==> r[i].rest == s[i].rest && r[i].coefficient == s[i].coefficient * k
  {
    if s == [] then [] else [ScaleComponent(s[0], k)] + ScaleComponents(s[1..], k)
  }

  /** The attribute set `operator*` returns: the same names, each list scaled. */
  function Scale<P>(a: AttributeMap<P>, k: real): (r: AttributeMap<P>)
    ensures r.Keys == a.Keys
    ensures forall n :: n in a ==> |r[n]| == |a[n]|
    ensures forall n, i :: n in a && 0 <= i < |a[n]| ==>
              r[n][i].rest == a[n][i].rest && r[n][i].coefficient == a[n][i].coefficient * k
  {
    map n | n in a :: ScaleComponents(a[n], k)
  }

  /** The inner loop of `operator*`: copy one component list, then multiply each coefficient in place. */
  method ScaleVector<P>(v: seq<ValueComponent<P>>, k: real) returns (sum: seq<ValueComponent<P>>)
    ensures |sum| == |v|
    ensures forall i :: 0 <= i < |v| ==> sum[i].rest == v[i].rest && sum[i].coefficient == v[i].coefficient * k
    ensures sum == ScaleComponents(v, k)
  {
    sum := v;
    var i := 0;
    while i < |sum|
      invariant 0 <= i <= |sum| == |v|
      invariant forall j :: 0 <= j < i ==> sum[j] == ScaleComponent(v[j], k)
      invariant sum[i..] == v[i..]
    {
      sum := sum[i := sum[i].(coefficient := sum[i].coefficient * k)];
      i := i + 1;
    }
  }

  /** Scaling by one changes nothing. */
  lemma {:induction false} ScaleComponentsByOne<P>(s: seq<ValueComponent<P>>)
    ensures ScaleComponents(s, 1.0) == s
  {
    if s != [] {
      ScaleComponentsByOne(s[1..]);
      assert s == [s[0]] + s[1..];
    }
  }

  lemma ScaleByOne<P>(a: AttributeMap<P>)
    ensures Scale(a, 1.0) == a
  {
    forall n | n in a
      ensures Scale(a, 1.0)[n] == a[n]
    {
      ScaleComponentsByOne(a[n]);
    }
  }

  /** Scaling twice is scaling once by the product of the factors. */
  lemma {:induction false} ScaleComponentsCompose<P>(s: seq<ValueComponent<P>>, k1: real, k2: real)
    ensures ScaleComponents(ScaleComponents(s, k1), k2) == ScaleComponents(s, k1 * k2)
  {
    if s != [] {
      var once := ScaleComponents(s, k1);
      assert once[1..] == ScaleComponents(s[1..], k1);
      ScaleComponentsCompose(s[1..], k1, k2);
      assert s[0].coefficient * k1 * k2 == s[0].coefficient * (k1 * k2);
      assert ScaleComponent(once[0], k2) == ScaleComponent(s[0], k1 * k2);
      assert ScaleComponents(once, k2) == [ScaleComponent(once[0], k2)] + ScaleComponents(once[1..], k2);
    }
  }

  lemma ScaleCompose<P>(a: AttributeMap<P>, k1: real, k2: real)
    ensures Scale(Scale(a, k1), k2) == Scale(a, k1 * k2)
  {
    forall n | n in a
      ensures Scale(Scale(a, k1), k2)[n] == Scale(a, k1 * k2)[n]
    {
      ScaleComponentsCompose(a[n], k1, k2);
    }
  }

  // ---------------------------------------------------------------------
  // Merging, as `operator+` is written

  /**
   * The attribute set `operator+` returns: exactly the left operand's names,
   * each holding the left components followed by the right operand's
   * components for that name, if it has any.
   */
  function MergeResult<P>(a: AttributeMap<P>, b: AttributeMap<P>): (r: AttributeMap<P>)
    ensures r.Keys == a.Keys
    ensures forall n :: n in a && n in b ==> r[n] == a[n] + b[n]
    ensures forall n :: n in a && n !in b ==> r[n] == a[n]
  {
    map n | n in a :: if n in b then a[n] + b[n] else a[n]
  }

  /**
   * The left operand's own attribute set after `operator+`: its entries are
   * kept as they were, and every name only the right operand has is added
   * with the right operand's components.
   */
  function MergeReceiver<P>(a: AttributeMap<P>, b: AttributeMap<P>): (r: AttributeMap<P>)
    ensures r.Keys == a.Keys + b.Keys
    ensures forall n :: n in a ==> r[n] == a[n]
    ensures forall n :: n in b && n !in a ==> r[n] == b[n]
  {
    map n | n in a.Keys + b.Keys :: if n in a then a[n] else b[n]
  }

  /** Merging with an empty right operand returns the left one and leaves it as it was. */
  lemma MergeWithEmpty<P>(a: AttributeMap<P>)
    ensures MergeResult(a, map[]) == a
    ensures MergeReceiver(a, map[]) == a
  {
  }

  /** Merging into an empty left operand returns an empty set; the receiver becomes a copy of the right operand. */
  lemma MergeIntoEmpty<P>(b: AttributeMap<P>)
    ensures MergeResult(map[], b) == map[]
    ensures MergeReceiver(map[], b) == b
  {
  }

  /** Merging a set with itself doubles each list and leaves the receiver as it was. */
  lemma MergeWithSelf<P>(a: AttributeMap<P>)
    ensures forall n :: n in a ==> MergeResult(a, a)[n] == a[n] + a[n]
    ensures MergeReceiver(a, a) == a
  {
  }

  /**
   * Because the receiver keeps the right-only names, a second merge with the
   * same right operand returns those names, each with the right components twice.
   */
  lemma MergeTwice<P>(a: AttributeMap<P>, b: AttributeMap<P>, n: string)
    requires n in b && n !in a
    ensures n in MergeResult(MergeReceiver(a, b), b)
    ensures MergeResult(MergeReceiver(a, b), b)[n] == b[n] + b[n]
  {
  }

  // ---------------------------------------------------------------------
  // Merging, corrected so that names only the right operand has reach the
  // result: the second loop of `operator+` writes them into the receiver's
  // own `values` instead of into the returned set

  /**
   * A merge whose result holds every name of either operand: the left
   * components followed by the right ones where both define the name, the
   * only operand's components otherwise. Neither operand changes.
   */
  function IntendedMerge<P>(a: AttributeMap<P>, b: AttributeMap<P>): (r: AttributeMap<P>)
    ensures r.Keys == a.Keys + b.Keys
    ensures forall n :: n in a && n in b ==> r[n] == a[n] + b[n]
    ensures forall n :: n in a && n !in b ==> r[n] == a[n]
    ensures forall n :: n !in a && n in b ==> r[n] == b[n]
  {
    map n | n in a.Keys + b.Keys ::
      if n in a && n in b then a[n] + b[n] else if n in a then a[n] else b[n]
  }

  /** The empty set is a two-sided identity of the intended merge. */
  lemma IntendedMergeIdentity<P>(a: AttributeMap<P>)
    ensures IntendedMerge(a, map[]) == a
    ensures IntendedMerge(map[], a) == a
  {
  }

  /** Scaling distributes over the intended merge. */
  lemma IntendedMergeScales<P>(a: AttributeMap<P>, b: AttributeMap<P>, k: real)
    ensures Scale(IntendedMerge(a, b), k) == IntendedMerge(Scale(a, k), Scale(b, k))
  {
    forall n | n in a && n in b
      ensures ScaleComponents(a[n] + b[n], k) == ScaleComponents(a[n], k) + ScaleComponents(b[n], k)
    {
      ScaleComponentsConcat(a[n], b[n], k);
    }
  }

  lemma {:induction false} ScaleComponentsConcat<P>(s: seq<ValueComponent<P>>, t: seq<ValueComponent<P>>, k: real)
    ensures ScaleComponents(s + t, k) == ScaleComponents(s, k) + ScaleComponents(t, k)
  {
    var lhs, rhs := ScaleComponents(s + t, k), ScaleComponents(s, k) + ScaleComponents(t, k);
    forall i | 0 <= i < |s| + |t|
      ensures lhs[i] == rhs[i]
    {
      if i < |s| {
        assert (s + t)[i] == s[i];
      } else {
        assert (s + t)[i] == t[i - |s|];
      }
    }
  }

  /**
   * What `operator+` returns is the intended merge cut down to the left
   * operand's names, and it is the whole intended merge exactly when every
   * name of the right operand is also a name of the left one.
   */
  lemma AsWrittenVsIntended<P>(a: AttributeMap<P>, b: AttributeMap<P>)
    ensures forall n :: n in MergeResult(a, b) ==> MergeResult(a, b)[n] == IntendedMerge(a, b)[n]
    ensures MergeResult(a, b) == IntendedMerge(a, b) <==> b.Keys <= a.Keys
    ensures MergeReceiver(a, b).Keys == IntendedMerge(a, b).Keys
  {
    if !(b.Keys <= a.Keys) {
      var n :| n in b.Keys && n !in a.Keys;
      assert n in IntendedMerge(a, b) && n !in MergeResult(a, b);
    }
  }

  /** Blending `from` towards `to` with `operator+` as written drops the names only `to` defines. */
  lemma BlendAsWrittenDropsNewAttributes<P>(p: P)
    ensures var from: AttributeMap<P> := map[];
            var to := map["opacity" := [ValueComponent(1.0, p)]];
            && MergeResult(Scale(from, 0.5), Scale(to, 0.5)) == map[]
            && IntendedMerge(Scale(from, 0.5), Scale(to, 0.5)) == map["opacity" := [ValueComponent(0.5, p)]]
  {
    var to := map["opacity" := [ValueComponent(1.0, p)]];
    assert Scale(to, 0.5)["opacity"] == [ValueComponent(0.5, p)];
  }

  // ---------------------------------------------------------------------
  // `State::Attributes`

  class Attributes<P> {
    var values: AttributeMap<P>

    constructor ()
      ensures values == map[]
    {
      values := map[];
    }

    /**
     * `operator*`: a fresh attribute set with this set's names, every
     * coefficient multiplied by `k`. This set is only read.
     */
    method Times(k: real) returns (ret: Attributes<P>)
      ensures fresh(ret)
      ensures ret.values == Scale(values, k)
    {
      ret := new Attributes();
      var todo := values.Keys;
      while todo != {}
        invariant todo <= values.Keys
        invariant ret.values.Keys == values.Keys - todo
        invariant forall n :: n in ret.values ==> ret.values[n] == ScaleComponents(values[n], k)
        decreases todo
      {
        var n :| n in todo;
        var sum := ScaleVector(values[n], k);
        ret.values := ret.values[n := sum];
        todo := todo - {n};
      }
    }

    /**
     * `operator+` as written: the returned set has exactly this set's names,
     * each with this set's components followed by `other`'s; the names only
     * `other` has are inserted into this set instead of the result. `other`
     * is never changed.
     */
    method Plus(other: Attributes<P>) returns (ret: Attributes<P>)
      modifies this
      ensures fresh(ret)
      ensures ret.values == MergeResult(old(values), old(other.values))
      ensures values == MergeReceiver(old(values), old(other.values))
      ensures other.values == old(other.values)
    {
      ret := new Attributes();
      var src := other.values;
      ghost var a := values;
      var todo := values.Keys;
      while todo != {}
        invariant values == a
        invariant todo <= a.Keys
        invariant ret.values.Keys == a.Keys - todo
        invariant forall n :: n in ret.values ==> ret.values[n] == if n in src then a[n] + src[n] else a[n]
        decreases todo
      {
        var n :| n in todo;
        var sum := values[n];
        if n in src {
          sum := sum + src[n];
        }
        ret.values := ret.values[n := sum];
        todo := todo - {n};
      }
      assert ret.values == MergeResult(a, src);

      var rest := src.Keys;
      while rest != {}
        invariant rest <= src.Keys
        invariant values.Keys == a.Keys + (src.Keys - rest)
        invariant forall n :: n in a ==> values[n] == a[n]
        invariant forall n :: n in values && n !in a ==> values[n] == src[n]
        invariant ret.values == MergeResult(a, src)
        decreases rest
      {
        var n :| n in rest;
        if n !in values {
          values := values[n := src[n]];
        }
        rest := rest - {n};
      }
      assert values == MergeReceiver(a, src);
    }
  }

  // ---------------------------------------------------------------------
  // `Element::StateMachine`

  /**
   * The wrapper around the generic state machine. `stateIds` stands for the
   * generic machine's table of defined states, which `hasState` consults;
   * `D` is the delegate's type.
   */
  class StateMachine<D> {
    const initialState: string
    const stateIds: set<string>
    const triggerStateMachine: bool
    var delegate: Option<D>

    constructor (initialState: string, stateIds: set<string>, trigger: bool := false)
      ensures this.initialState == initialState && this.stateIds == stateIds
      ensures triggerStateMachine == trigger
      ensures delegate == None
    {
      this.initialState := initialState;
      this.stateIds := stateIds;
      triggerStateMachine := trigger;
      delegate := None;
    }

    /** Whether `id` names a state of the machine's state table. */
    predicate HasState(id: string)
    {
      id in stateIds
    }

    /** A state is a trigger only in a machine built as a trigger machine, and only if the state is defined. */
    function HasTrigger(id: string): bool
    {
      triggerStateMachine && HasState(id)
    }

    /** Replaces the delegate; nothing else changes. */
    method SetDelegate(d: Option<D>)
      modifies this`delegate
      ensures delegate == d
    {
      delegate := d;
    }
  }

  /** A machine built with the default trigger flag has no trigger state, whatever states it defines. */
  method DefaultMachineHasNoTrigger<D>(initialState: string, stateIds: set<string>, id: string) returns (r: bool)
    ensures !r
  {
    var m := new StateMachine<D>(initialState, stateIds);
    r := m.HasTrigger(id);
  }

  /** A trigger machine reports a trigger for exactly its defined states. */
  method TriggerMachineTriggersOnDefinedStates<D>(initialState: string, stateIds: set<string>, id: string) returns (r: bool)
    ensures r <==> id in stateIds
  {
    var m := new StateMachine<D>(initialState, stateIds, true);
    r := m.HasTrigger(id);
  }
}
