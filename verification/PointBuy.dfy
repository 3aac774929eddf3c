/** The point-buy allocator of `scripts/e2e-plugin-verify.ts`. */
module PointBuy {
  import opened Wrappers

  /** Names, numbered. */
  type Name = nat

  datatype Field = Field(name: Name, number: bool, min: Option<int>, max: Option<int>)

  type Values = map<Name, int>

  /** Every number field has a value, and no two fields share a name. */
  predicate Proper(fields: seq<Field>, values: Values)
  {
    && (forall i :: 0 <= i < |fields| && fields[i].number ==> fields[i].name in values)
    && (forall i, j :: 0 <= i < j < |fields| ==> fields[i].name != fields[j].name)
  }

  function Base(f: Field): int { if f.min.Some? then f.min.value else 0 }

  /** What the number fields have above their minimum. */
  function Spent(fields: seq<Field>, values: Values): int
    requires forall f :: f in fields && f.number ==> f.name in values
  {
    if fields == [] then 0
    else
      var last := fields[|fields| - 1];
      Spent(fields[..|fields| - 1], values) + if last.number then values[last.name] - Base(last) else 0
  }

  predicate BelowCap(f: Field, values: Values)
    requires f.name in values
  {
    f.max.None? || values[f.name] < f.max.value
  }

  lemma {:induction false} SpentSame(fields: seq<Field>, values: Values, name: Name, value: int)
    requires forall f :: f in fields && f.number ==> f.name in values && f.name != name
    ensures Spent(fields, values[name := value]) == Spent(fields, values)
  {
    if fields == [] {
    } else {
      SpentSame(fields[..|fields| - 1], values, name, value);
    }
  }

  /** A form with every number at its minimum, or at 0 where there is none, has spent nothing. */
  lemma {:induction false} MinimumCostsNothing(fields: seq<Field>, values: Values)
    requires forall f :: f in fields && f.number ==>
               f.name in values && values[f.name] == match f.min case Some(least) => least case None => 0
    ensures Spent(fields, values) == 0
  {
    if fields != [] {
      MinimumCostsNothing(fields[..|fields| - 1], values);
      assert fields[|fields| - 1] in fields;
    }
  }

  /** Raising one field by a point spends a point. */
  lemma {:induction false} SpentOneMore(fields: seq<Field>, values: Values, f: Field)
    requires Proper(fields, values) && f in fields && f.number
    ensures Spent(fields, values[f.name := values[f.name] + 1]) == Spent(fields, values) + 1
  {
    var n := |fields| - 1;
    if fields[n] == f {
      SpentSame(fields[..n], values, f.name, values[f.name] + 1);
    } else {
      SpentOneMore(fields[..n], values, f);
    }
  }

  /** The open fields: the number fields whose value the caller did not give. */
  function Open(fields: seq<Field>, overrides: set<Name>): seq<Field>
  {
    if fields == [] then []
    else
      var last := fields[|fields| - 1];
      Open(fields[..|fields| - 1], overrides) + if last.number && last.name !in overrides then [last] else []
  }

  lemma {:induction false} OpenAreThose(fields: seq<Field>, overrides: set<Name>)
    ensures forall f :: f in Open(fields, overrides) <==> f in fields && f.number && f.name !in overrides
    ensures |Open(fields, overrides)| <= |fields|
  {
    if fields == [] {
    } else {
      var n := |fields| - 1;
      OpenAreThose(fields[..n], overrides);
      assert fields == fields[..n] + [fields[n]];
    }
  }

  /** How many points a field has been given. */
  function Granted(before: Values, after: Values, f: Field): int
    requires f.name in before && f.name in after
  {
    after[f.name] - before[f.name]
  }

  /** No field has been given two points more than another that could still take one. */
  ghost predicate Fair(open: seq<Field>, before: Values, after: Values)
    requires forall f :: f in open ==> f.name in before && f.name in after
  {
    forall f, g :: f in open && g in open && BelowCap(g, after) ==>
      Granted(before, after, f) <= Granted(before, after, g) + 1
  }

  /** Of the fields that can still take a point, those earlier in the queue have not been given more. */
  ghost predicate Queued(open: seq<Field>, before: Values, after: Values)
    requires forall f :: f in open ==> f.name in before && f.name in after
  {
    forall i, j :: 0 <= i < j < |open| && BelowCap(open[i], after) && BelowCap(open[j], after) ==>
      Granted(before, after, open[i]) <= Granted(before, after, open[j])
  }

  /** What spending promises of the values. */
  ghost predicate SpentWell(open: seq<Field>, before: Values, after: Values)
    requires forall f :: f in open ==> f.name in before
  {
    && after.Keys == before.Keys
    && (forall name :: name in before && (forall f :: f in open ==> f.name != name) ==> after[name] == before[name])
    && (forall f :: f in open ==>
          before[f.name] <= after[f.name]
          && (f.max.Some? ==> after[f.name] <= f.max.value || after[f.name] == before[f.name]))
    && Fair(open, before, after)
  }

  predicate Distinct(open: seq<Field>)
  {
    forall i, j :: 0 <= i < j < |open| ==> open[i].name != open[j].name
  }

  lemma {:induction false} OpenDistinct(fields: seq<Field>, overrides: set<Name>)
    requires Distinct(fields)
    ensures Distinct(Open(fields, overrides))
  {
    if fields == [] {
    } else {
      var n := |fields| - 1;
      OpenDistinct(fields[..n], overrides);
      OpenAreThose(fields[..n], overrides);
    }
  }

  /** The queue after its `k`-th field got a point and went to the end. */
  function Requeued(open: seq<Field>, k: nat): seq<Field>
    requires k < |open|
  {
    open[..k] + open[k + 1..] + [open[k]]
  }

  lemma RequeuedSame(open: seq<Field>, k: nat)
    requires k < |open| && Distinct(open)
    ensures Distinct(Requeued(open, k)) && forall f :: f in Requeued(open, k) <==> f in open
  {
    var next := Requeued(open, k);
    assert forall i :: 0 <= i < |open| ==>
      open[i] == if i < k then next[i] else if i == k then next[|open| - 1] else next[i - 1];
    assert forall i :: 0 <= i < |open| - 1 ==> next[i] == if i < k then open[i] else open[i + 1];
  }

  /** Where the fields of the new queue were in the old one. */
  function Was(open: seq<Field>, k: nat, i: nat): (j: nat)
    requires k < |open| && i < |open|
    ensures j < |open| && Requeued(open, k)[i] == open[j]
    ensures (j == k <==> i == |open| - 1)
  {
    if i < k then i else if i < |open| - 1 then i + 1 else k
  }

  lemma OthersSame(open: seq<Field>, after: Values, k: nat, j: nat)
    requires k < |open| && j < |open| && Distinct(open) && open[j].name in after && open[k].name in after
    ensures var more := after[open[k].name := after[open[k].name] + 1];
            if j == k then more[open[j].name] == after[open[j].name] + 1 else more[open[j].name] == after[open[j].name]
  {
    if j < k {
      assert open[j].name != open[k].name;
    } else if k < j {
      assert open[k].name != open[j].name;
    }
  }

  /** The first field that can take a point gets it: nobody gets ahead... */
  lemma GrantIsFair(open: seq<Field>, before: Values, after: Values, k: nat, more: Values)
    requires k < |open| && Distinct(open) && forall f :: f in open ==> f.name in before && f.name in after
    requires Fair(open, before, after) && Queued(open, before, after)
    requires BelowCap(open[k], after) && forall i :: 0 <= i < k ==> !BelowCap(open[i], after)
    requires more == after[open[k].name := after[open[k].name] + 1]
    ensures (forall f :: f in open ==> f.name in before && f.name in more) && Fair(open, before, more)
  {
    forall f, g | f in open && g in open && BelowCap(g, more)
      ensures Granted(before, more, f) <= Granted(before, more, g) + 1
    {
      var i :| 0 <= i < |open| && open[i] == f;
      var j :| 0 <= j < |open| && open[j] == g;
      OthersSame(open, after, k, i);
      OthersSame(open, after, k, j);
      assert BelowCap(g, after);
      assert k < j ==> Granted(before, after, open[k]) <= Granted(before, after, open[j]);
    }
  }

  /** ... and the queue stays ordered. */
  lemma QueueStaysOrdered(
      open: seq<Field>, before: Values, after: Values, k: nat, next: seq<Field>, more: Values)
    requires k < |open| && Distinct(open) && forall f :: f in open ==> f.name in before && f.name in after
    requires Fair(open, before, after) && Queued(open, before, after) && BelowCap(open[k], after)
    requires next == Requeued(open, k) && more == after[open[k].name := after[open[k].name] + 1]
    ensures (forall f :: f in next ==> f.name in before && f.name in more) && Queued(next, before, more)
  {
    RequeuedSame(open, k);
    forall i, j | 0 <= i < j < |next| && BelowCap(next[i], more) && BelowCap(next[j], more)
      ensures Granted(before, more, next[i]) <= Granted(before, more, next[j])
    {
      var p, q := Was(open, k, i), Was(open, k, j);
      OthersSame(open, after, k, p);
      OthersSame(open, after, k, q);
      assert q == k ==> Granted(before, after, open[p]) <= Granted(before, after, open[k]) + 1;
      assert q != k ==> p < q;
    }
  }

  /** One more point is spent well. */
  lemma GrantIsWell(open: seq<Field>, before: Values, after: Values, k: nat, more: Values)
    requires k < |open| && Distinct(open) && forall f :: f in open ==> f.name in before
    requires SpentWell(open, before, after) && Queued(open, before, after)
    requires BelowCap(open[k], after) && forall i :: 0 <= i < k ==> !BelowCap(open[i], after)
    requires more == after[open[k].name := after[open[k].name] + 1]
    ensures SpentWell(open, before, more)
  {
    GrantIsFair(open, before, after, k, more);
    assert open[k] in open;
    forall f | f in open
      ensures before[f.name] <= more[f.name]
              && (f.max.Some? ==> more[f.name] <= f.max.value || more[f.name] == before[f.name])
    {
      var j :| 0 <= j < |open| && open[j] == f;
      OthersSame(open, after, k, j);
    }
  }

  /** The order of the queue does not matter to that. */
  lemma WellInAnyOrder(open: seq<Field>, queue: seq<Field>, before: Values, after: Values)
    requires forall f :: f in open <==> f in queue
    requires (forall f :: f in open ==> f.name in before) && SpentWell(open, before, after)
    ensures SpentWell(queue, before, after)
  {
  }

  /** `find`: the first field of the queue that can take a point. */
  method FindOpen(open: seq<Field>, values: Values) returns (k: nat)
    requires forall f :: f in open ==> f.name in values
    ensures k <= |open| && (k < |open| ==> BelowCap(open[k], values))
    ensures forall i :: 0 <= i < k ==> !BelowCap(open[i], values)
  {
    k := 0;
    while k < |open|
      invariant k <= |open| && forall i :: 0 <= i < k ==> !BelowCap(open[i], values)
    {
      if BelowCap(open[k], values) { return; }
      k := k + 1;
    }
  }

  /** Between two points: the queue holds the open fields, and all is well so far. */
  ghost predicate Spending(fields: seq<Field>, open: seq<Field>, queue: seq<Field>, before: Values, after: Values)
  {
    && Proper(fields, after) && Distinct(queue) && (forall f :: f in queue <==> f in open)
    && (forall f :: f in open ==> f in fields && f.number && f.name in before && f.name in after)
    && SpentWell(queue, before, after) && Queued(queue, before, after)
  }

  lemma SpendingStarts(fields: seq<Field>, open: seq<Field>, values: Values)
    requires Proper(fields, values) && Distinct(open) && forall f :: f in open ==> f in fields && f.number
    ensures Spending(fields, open, open, values, values)
  {
  }

  /** The queue's part of what one more point keeps. */
  lemma GrantKeeps(queue: seq<Field>, before: Values, after: Values, k: nat, next: seq<Field>, more: Values)
    requires k < |queue| && Distinct(queue) && forall f :: f in queue ==> f.name in before
    requires SpentWell(queue, before, after) && Queued(queue, before, after) && BelowCap(queue[k], after)
    requires forall i :: 0 <= i < k ==> !BelowCap(queue[i], after)
    requires next == Requeued(queue, k) && more == after[queue[k].name := after[queue[k].name] + 1]
    ensures Distinct(next) && (forall f :: f in next <==> f in queue)
    ensures SpentWell(next, before, more) && Queued(next, before, more)
  {
    GrantIsWell(queue, before, after, k, more);
    QueueStaysOrdered(queue, before, after, k, next, more);
    RequeuedSame(queue, k);
    WellInAnyOrder(queue, next, before, more);
  }

  lemma SpendingGoesOn(fields: seq<Field>, open: seq<Field>, queue: seq<Field>, before: Values, after: Values,
                       k: nat, next: seq<Field>, more: Values)
    requires Spending(fields, open, queue, before, after) && k < |queue| && BelowCap(queue[k], after)
    requires forall i :: 0 <= i < k ==> !BelowCap(queue[i], after)
    requires next == Requeued(queue, k) && more == after[queue[k].name := after[queue[k].name] + 1]
    ensures Spending(fields, open, next, before, more) && Spent(fields, more) == Spent(fields, after) + 1
  {
    assert queue[k] in queue && queue[k] in fields;
    SpentOneMore(fields, after, queue[k]);
    GrantKeeps(queue, before, after, k, next, more);
  }

  lemma SpendingEnds(fields: seq<Field>, open: seq<Field>, queue: seq<Field>, before: Values, after: Values)
    requires Spending(fields, open, queue, before, after)
    ensures (forall f :: f in open ==> f.name in before && f.name in after) && SpentWell(open, before, after)
    ensures (forall i :: 0 <= i < |queue| ==> !BelowCap(queue[i], after)) ==>
              forall f :: f in open ==> !BelowCap(f, after)
  {
    WellInAnyOrder(queue, open, before, after);
  }

  class Form {
    var values: Values

    constructor (values: Values)
      ensures this.values == values
    {
      this.values := values;
    }

    /** The loop: a point at a time to the first field of the queue that can take it. */
    method SpendOn(ghost fields: seq<Field>, open: seq<Field>, points: int) returns (left: int)
      requires Proper(fields, values) && Distinct(open) && forall f :: f in open ==> f in fields && f.number
      modifies this
      ensures forall f :: f in open ==> f.name in old(values) && f.name in values
      ensures Proper(fields, values) && Spent(fields, values) + left == old(Spent(fields, values)) + points
      ensures left <= 0 || forall f :: f in open ==> !BelowCap(f, values)
      ensures if points > 0 then left >= 0 else left == points && values == old(values)
      ensures SpentWell(open, old(values), values)
    {
      ghost var before := values;
      var queue := open;
      left := points;
      SpendingStarts(fields, open, values);
      while left > 0
        invariant Spending(fields, open, queue, before, values)
        invariant Spent(fields, values) + left == Spent(fields, before) + points
        invariant if points > 0 then left >= 0 else left == points && values == before
        decreases left
      {
        var k := FindOpen(queue, values);
        if k == |queue| { break; }
        var field := queue[k];
        var next, more := Requeued(queue, k), values[field.name := values[field.name] + 1];
        SpendingGoesOn(fields, open, queue, before, values, k, next, more);
        queue, values, left := next, more, left - 1;
      }
      SpendingEnds(fields, open, queue, before, values);
    }

    /**
      * `spendPointBuyBudget`. Spent and left always make up the budget; in the end nothing is left, or
      * every open field is at its cap; and the points are spread evenly.
      */
    method Spend(fields: seq<Field>, overrides: set<Name>, budget: int) returns (left: int)
      requires Proper(fields, values)
      modifies this
      ensures Proper(fields, values) && Spent(fields, values) + left == budget
      ensures forall f :: f in Open(fields, overrides) ==> f.name in old(values) && f.name in values
      ensures left <= 0 || forall f :: f in Open(fields, overrides) ==> !BelowCap(f, values)
      ensures if budget > old(Spent(fields, values)) then left >= 0 else values == old(values)
      ensures SpentWell(Open(fields, overrides), old(values), values)
    {
      OpenAreThose(fields, overrides);
      OpenDistinct(fields, overrides);
      left := SpendOn(fields, Open(fields, overrides), budget - Spent(fields, values));
    }
  }
}
