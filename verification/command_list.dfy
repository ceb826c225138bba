/** Index arithmetic of the command list (`CommandListProvider`).

    A command list shows `values`, some of which are disabled (headings, dividers).
    Keyboard navigation moves over the enabled ones only, through a dense index that
    counts enabled items; the virtual list positions are translated back and forth. */
module CommandList {
  import opened Base

  /** One entry of `values`: optional `disabled` and `selected` flags and the payload. */
  datatype ItemValue<T> = ItemValue(disabled: Option<bool>, selected: Option<bool>, value: T)

  datatype Direction = Previous | Next

  /** `!v.disabled`: only an explicit `true` disables an item. */
  predicate Enabled<T>(v: ItemValue<T>) {
    !IsSet(v.disabled)
  }

  /** `values.filter((v) => !v.disabled).length`. */
  function ActiveItemCount<T>(values: seq<ItemValue<T>>): (count: nat)
    ensures count <= |values|
    ensures count == 0 <==> forall k :: 0 <= k < |values| ==> !Enabled(values[k])
    ensures count == |values| <==> forall k :: 0 <= k < |values| ==> Enabled(values[k])
    decreases |values|
  {
    if values == [] then 0
    else ActiveItemCount(values[..|values| - 1]) + (if Enabled(values[|values| - 1]) then 1 else 0)
  }

  /** The dense index of every position: how many enabled items precede it, or `None`
      for a disabled item. */
  function ItemIndicesOf<T>(values: seq<ItemValue<T>>): seq<Option<nat>> {
    seq(|values|, k requires 0 <= k < |values| =>
      if Enabled(values[k]) then Some(ActiveItemCount(values[..k])) else None)
  }

  /** The `itemIndices` memo: a running counter that starts at -1 and is bumped on
      every enabled item. */
  method ItemIndices<T>(values: seq<ItemValue<T>>) returns (indices: seq<Option<nat>>)
    ensures |indices| == |values|
    ensures forall k :: 0 <= k < |values| ==> (indices[k].None? <==> !Enabled(values[k]))
    ensures indices == ItemIndicesOf(values)
  {
    var i: int := -1;
    indices := [];
    for index := 0 to |values|
      invariant |indices| == index
      invariant i == ActiveItemCount(values[..index]) - 1
      invariant forall k :: 0 <= k < index ==> indices[k] == ItemIndicesOf(values)[k]
    {
      assert values[..index + 1][..index] == values[..index];
      var isEnabled := !IsSet(values[index].disabled);
      if isEnabled {
        i := i + 1;
      }
      indices := indices + [if isEnabled then Some(i as nat) else None];
    }
    assert values[..|values|] == values;
  }

  /** The dense indices that are present, in order. */
  function DenseIndices(indices: seq<Option<nat>>): seq<nat> {
    if indices == [] then []
    else
      var last := indices[|indices| - 1];
      DenseIndices(indices[..|indices| - 1]) + (if last.Some? then [last.value] else [])
  }

  /** `[0, 1, ..., n - 1]`. */
  function Range(n: nat): (r: seq<nat>)
    ensures |r| == n && forall i :: 0 <= i < n ==> r[i] == i
  {
    seq(n, i requires 0 <= i < n => i)
  }

  /** The non-null entries of `itemIndices` are exactly 0, 1, 2, ... in order, as many as
      `activeItemCount`. */
  lemma {:induction false} DenseIndicesAreConsecutive<T>(values: seq<ItemValue<T>>)
    ensures DenseIndices(ItemIndicesOf(values)) == Range(ActiveItemCount(values))
    decreases |values|
  {
    if values != [] {
      var init := values[..|values| - 1];
      var indices := ItemIndicesOf(values);
      forall k | 0 <= k < |init|
        ensures indices[k] == ItemIndicesOf(init)[k]
      {
        assert values[..k] == init[..k];
      }
      assert indices[..|indices| - 1] == ItemIndicesOf(init);
      assert values[..|values| - 1] == init;
      DenseIndicesAreConsecutive(init);
    }
  }

  /** Dense indices grow strictly from one enabled item to the next. */
  lemma {:induction false} CountGrows<T>(values: seq<ItemValue<T>>, p: nat, q: nat)
    requires p < q <= |values| && Enabled(values[p])
    ensures ActiveItemCount(values[..p]) < ActiveItemCount(values[..q])
    decreases q
  {
    assert values[..q][..q - 1] == values[..q - 1];
    if q - 1 > p {
      CountGrows(values, p, q - 1);
    } else {
      assert values[..q - 1] == values[..p];
    }
  }

  /** Every dense index below the count is held by exactly one position, and no other
      number is held at all. */
  lemma {:induction false} DenseIndexOwner<T>(values: seq<ItemValue<T>>, index: int)
    ensures 0 <= index < ActiveItemCount(values) ==>
      exists p :: 0 <= p < |values| && ItemIndicesOf(values)[p] == Some(index)
    ensures !(0 <= index < ActiveItemCount(values)) ==>
      forall p :: 0 <= p < |values| ==> ItemIndicesOf(values)[p] != Some(index)
    ensures forall p, q ::
      (0 <= p < q < |values| && ItemIndicesOf(values)[p].Some? && ItemIndicesOf(values)[q].Some?)
      ==> ItemIndicesOf(values)[p] != ItemIndicesOf(values)[q]
  {
    var indices := ItemIndicesOf(values);
    forall p, q | 0 <= p < q < |values| && indices[p].Some? && indices[q].Some?
      ensures indices[p] != indices[q]
    {
      CountGrows(values, p, q);
    }
    forall p | 0 <= p < |values| && indices[p].Some?
      ensures indices[p].value < ActiveItemCount(values)
    {
      CountGrows(values, p, |values|);
      assert values[..|values|] == values;
    }
    if 0 <= index < ActiveItemCount(values) {
      DenseIndicesAreConsecutive(values);
      assert DenseIndices(indices)[index] == index;
      DenseIndexHasSource(indices, index);
    }
  }

  /** A value listed by `DenseIndices` comes from some position. */
  lemma {:induction false} DenseIndexHasSource(indices: seq<Option<nat>>, n: nat)
    requires n in DenseIndices(indices)
    ensures exists p :: 0 <= p < |indices| && indices[p] == Some(n)
    decreases |indices|
  {
    var last := |indices| - 1;
    if n in DenseIndices(indices[..last]) {
      DenseIndexHasSource(indices[..last], n);
      var p :| 0 <= p < last && indices[..last][p] == Some(n);
      assert indices[p] == Some(n);
    } else {
      assert indices[last] == Some(n);
    }
  }

  /** `itemIndices.indexOf(index)`: the first position holding `index`, or -1. */
  method IndexOf(indices: seq<Option<nat>>, index: int) returns (pos: int)
    ensures -1 <= pos < |indices|
    ensures pos == -1 <==> forall k :: 0 <= k < |indices| ==> indices[k] != Some(index)
    ensures pos >= 0 ==> indices[pos] == Some(index)
    ensures pos >= 0 ==> forall k :: 0 <= k < pos ==> indices[k] != Some(index)
  {
    var k := 0;
    while k < |indices|
      invariant 0 <= k <= |indices|
      invariant forall j :: 0 <= j < k ==> indices[j] != Some(index)
    {
      if indices[k] == Some(index) {
        return k;
      }
      k := k + 1;
    }
    return -1;
  }

  /** `setActiveIndex`: record the new active index and, when asked to, the virtual list
      position to scroll to (only when `indexOf` finds one). */
  method SetActiveIndex<T>(values: seq<ItemValue<T>>, index: int, scrollIntoView: bool)
    returns (active: int, scrollTo: Option<nat>)
    ensures active == index
    ensures !scrollIntoView ==> scrollTo.None?
    ensures scrollIntoView && 0 <= index < ActiveItemCount(values) ==>
      && scrollTo.Some? && scrollTo.value < |values|
      && Enabled(values[scrollTo.value])
      && ActiveItemCount(values[..scrollTo.value]) == index
    ensures !(0 <= index < ActiveItemCount(values)) ==> scrollTo.None?
  {
    active := index;
    scrollTo := None;
    if scrollIntoView {
      var indices := ItemIndices(values);
      var virtualListIndex := IndexOf(indices, index);
      DenseIndexOwner(values, index);
      if virtualListIndex > -1 {
        scrollTo := Some(virtualListIndex);
      }
    }
  }

  /** `selectAdjacentItemIndex`: the next active index, wrapping at both ends. */
  function SelectAdjacent(direction: Direction, active: int, count: nat): (next: int)
    ensures direction == Next && active < count - 1 ==> next == active + 1
    ensures direction == Next && active >= count - 1 ==> next == 0
    ensures direction == Previous && active > 0 ==> next == active - 1
    ensures direction == Previous && active <= 0 ==> next == count - 1
    ensures 1 <= count && 0 <= active < count ==> 0 <= next < count
  {
    match direction
    case Next => if active < count - 1 then active + 1 else 0
    case Previous => if active > 0 then active - 1 else count - 1
  }

  /** "previous" undoes "next" and "next" undoes "previous". */
  lemma AdjacentInverse(active: int, count: nat)
    requires 0 <= active < count
    ensures SelectAdjacent(Previous, SelectAdjacent(Next, active, count), count) == active
    ensures SelectAdjacent(Next, SelectAdjacent(Previous, active, count), count) == active
  {
  }

  /** `steps` presses of the down arrow. */
  function Repeat(direction: Direction, steps: nat, active: int, count: nat): int {
    if steps == 0 then active
    else SelectAdjacent(direction, Repeat(direction, steps - 1, active, count), count)
  }

  /** Pressing down `steps` times walks the list cyclically. */
  lemma {:induction false} NextIsCyclic(steps: nat, active: int, count: nat)
    requires 0 <= active < count
    ensures Repeat(Next, steps, active, count) == (active + steps) % count
  {
    if steps > 0 {
      NextIsCyclic(steps - 1, active, count);
      var before := (active + steps - 1) % count;
      assert 0 <= before < count;
      if before < count - 1 {
        assert (active + steps) % count == before + 1 by {
          ModSuccessor(active + steps - 1, count);
        }
      } else {
        assert (active + steps) % count == 0 by {
          ModSuccessor(active + steps - 1, count);
        }
      }
    }
  }

  lemma ModSuccessor(x: nat, count: nat)
    requires 0 < count
    ensures x % count < count - 1 ==> (x + 1) % count == x % count + 1
    ensures x % count == count - 1 ==> (x + 1) % count == 0
  {
    var q, r := x / count, x % count;
    assert x == q * count + r;
    if r < count - 1 {
      ModUnique(x + 1, q, r + 1, count);
    } else {
      assert x + 1 == q * count + count;
      assert x + 1 == (q + 1) * count + 0;
      ModUnique(x + 1, q + 1, 0, count);
    }
  }

  /** Helpers for Euclidean remainders. */
  lemma MulAtLeast(d: int, n: int)
    requires d >= 1 && n >= 0
    ensures d * n >= n
  {
    if d > 1 {
      MulAtLeast(d - 1, n);
      assert d * n == (d - 1) * n + n;
    }
  }

  lemma ModUnique(a: int, q: int, r: int, n: int)
    requires 0 <= r < n && a == q * n + r
    ensures a % n == r
  {
    var q', r' := a / n, a % n;
    assert a == q' * n + r';
    assert q * n - q' * n == r' - r;
    assert (q - q') * n == r' - r;
    if q > q' {
      MulAtLeast(q - q', n);
    } else if q < q' {
      MulAtLeast(q' - q, n);
    }
  }

  /** `itemIndicesSelected`: `v.selected || typeof v.selected === 'undefined'`. */
  function SelectedFlags<T>(values: seq<ItemValue<T>>): (flags: seq<bool>)
    ensures |flags| == |values|
    ensures forall k :: 0 <= k < |values| ==> (!flags[k] <==> values[k].selected == Some(false))
  {
    var flags := seq(|values|, k requires 0 <= k < |values| =>
      IsSet(values[k].selected) || values[k].selected.None?);
    forall k | 0 <= k < |values|
      ensures !flags[k] <==> values[k].selected == Some(false)
    {
      var selected := values[k].selected;
      assert flags[k] == (IsSet(selected) || selected.None?);
      if selected.Some? {
        assert selected.value || selected == Some(false);
      }
    }
    flags
  }

  /** The ARIA attributes `handleAssignActiveState` gives a rendered child. */
  datatype AriaAttributes = AriaAttributes(posInSet: int, selected: bool, setSize: nat, descendant: nat)

  /** Attributes of the child rendered at `virtualIndex`; a disabled or unknown child gets none. */
  function ChildAttributes<T>(values: seq<ItemValue<T>>, virtualIndex: int): (r: Option<AriaAttributes>)
    ensures r.Some? <==> 0 <= virtualIndex < |values| && Enabled(values[virtualIndex])
    ensures r.Some? ==> r.value.posInSet == ActiveItemCount(values[..virtualIndex]) + 1
    ensures r.Some? ==> 1 <= r.value.posInSet <= r.value.setSize == ActiveItemCount(values)
    ensures r.Some? ==> (r.value.selected <==> values[virtualIndex].selected != Some(false))
    ensures r.Some? ==> r.value.descendant == ActiveItemCount(values[..virtualIndex])
  {
    if 0 <= virtualIndex < |values| && ItemIndicesOf(values)[virtualIndex].Some? then
      var childIndex := ItemIndicesOf(values)[virtualIndex].value;
      CountGrows(values, virtualIndex, |values|);
      assert values[..|values|] == values;
      Some(AriaAttributes(childIndex + 1, SelectedFlags(values)[virtualIndex],
                          ActiveItemCount(values), childIndex))
    else None
  }

  /** `showChildrenActiveState`: a child is marked active when its entry of `itemIndices`
      is strictly equal to the active index; the index is `null` while the list is blurred,
      and a position past the end reads as `undefined`. */
  function MarkedActive<T>(values: seq<ItemValue<T>>, virtualIndex: int, active: Option<int>): (marked: bool)
    ensures !(0 <= virtualIndex < |values|) ==> !marked
    ensures 0 <= virtualIndex < |values| && active.Some? ==>
      (marked <==> Enabled(values[virtualIndex]) && ActiveItemCount(values[..virtualIndex]) == active.value)
    ensures 0 <= virtualIndex < |values| && active.None? ==> (marked <==> !Enabled(values[virtualIndex]))
  {
    if 0 <= virtualIndex < |values| then
      match ItemIndicesOf(values)[virtualIndex]
      case None => active.None?
      case Some(n) => active == Some(n as int)
    else false
  }
}
