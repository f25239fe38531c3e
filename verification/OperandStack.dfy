/** The operand stack: doubly linked nodes with the most recent value at the tail. */
module OperandStack {
  import opened Core
  import opened Machine

  class StackNode {
    var value: Value
    var next: StackNode?
    var prev: StackNode?
    ghost var position: nat  // of the node in its chain, which keeps the nodes of a chain apart

    constructor (value: Value, prev: StackNode?, ghost position: nat)
      ensures this.value == value && this.prev == prev && this.next == null && this.position == position
    {
      this.value, this.prev, this.next, this.position := value, prev, null, position;
    }
  }

  /** The node at a position of the chain, or null past its ends. */
  ghost function At(nodes: seq<StackNode>, i: int): StackNode? {
    if 0 <= i < |nodes| then nodes[i] else null
  }

  function Backwards(vs: seq<Value>): (r: seq<Value>)
    ensures |r| == |vs| && forall k :: 0 <= k < |vs| ==> r[k] == vs[|vs| - 1 - k]
  {
    seq(|vs|, k requires 0 <= k < |vs| => vs[|vs| - 1 - k])
  }

  class JobStack {
    var head: StackNode?
    var tail: StackNode?
    var size: nat
    ghost var nodes: seq<StackNode>

    /** The links in both directions, the two ends and the size describe one chain of nodes. */
    ghost predicate Valid()
      reads this, nodes
      ensures Valid() ==> size == |nodes|
    {
      && size == |nodes|
      && head == At(nodes, 0) && tail == At(nodes, |nodes| - 1)
      && (forall i :: 0 <= i < |nodes| ==> nodes[i].position == i)
      && (forall i {:trigger nodes[i].next} :: 0 <= i < |nodes| ==> nodes[i].next == At(nodes, i + 1))
      && (forall i {:trigger nodes[i].prev} :: 0 <= i < |nodes| ==> nodes[i].prev == At(nodes, i - 1))
    }

    /** The values, oldest first. */
    ghost function Contents(): (s: seq<Value>)
      reads this, nodes
      ensures |s| == |nodes|
      ensures forall i :: 0 <= i < |nodes| ==> s[i] == nodes[i].value
    {
      seq(|nodes|, i requires 0 <= i < |nodes| reads this, nodes => nodes[i].value)
    }

    constructor ()
      ensures Valid() && Contents() == [] && nodes == []
    {
      head, tail, size, nodes := null, null, 0, [];
    }

    method Push(value: Value)
      requires Valid()
      modifies this, nodes
      ensures Valid() && Contents() == old(Contents()) + [value]
      ensures |nodes| == |old(nodes)| + 1 && nodes[..|old(nodes)|] == old(nodes) && fresh(nodes[|old(nodes)|])
    {
      hide Contents;
      var node := new StackNode(value, tail, |nodes|);
      if tail != null {
        tail.next := node;
      } else {
        head := node;
      }
      tail := node;
      size := size + 1;
      nodes := nodes + [node];
    }

    /** Takes the most recent value off, if there is one. */
    method Pop() returns (out: Option<Value>)
      requires Valid()
      modifies this, nodes
      ensures Valid()
      ensures out.None? <==> old(Contents()) == []
      ensures out.None? ==> Contents() == [] && nodes == old(nodes)
      ensures out.Some? ==> old(Contents()) == Contents() + [out.value] && nodes == old(nodes)[..|old(nodes)| - 1]
    {
      hide Contents;
      if tail == null {
        return None;
      }
      var node := tail;
      assert node == nodes[|nodes| - 1] && node.prev == At(nodes, |nodes| - 2);
      out := Some(node.value);
      assert out.value == Contents()[|nodes| - 1];
      tail := node.prev;
      if tail != null {
        tail.next := null;
      } else {
        head := null;
      }
      size := size - 1;
      nodes := nodes[..|nodes| - 1];
      assert old(Contents()) == Contents() + [out.value];
    }

    /** The value `depth` places below the top. */
    method Peek(depth: nat) returns (out: Option<Value>)
      requires Valid()
      ensures out == if depth < |Contents()| then Some(Contents()[|Contents()| - 1 - depth]) else None
    {
      var node, left := tail, depth;
      while node != null && left > 0
        invariant 0 <= left <= depth
        invariant node == At(nodes, |nodes| - 1 - (depth - left))
        decreases left
      {
        assert node == nodes[|nodes| - 1 - (depth - left)];
        node, left := node.prev, left - 1;
      }
      assert node != null ==> node == nodes[|nodes| - 1 - depth];
      return if node == null then None else Some(node.value);
    }

    /** Frees every node, oldest first. */
    method Reset()
      requires Valid()
      modifies this
      ensures Valid() && Contents() == [] && nodes == []
    {
      var cur := head;
      ghost var freed := 0;
      while cur != null
        invariant freed <= |nodes| && cur == At(nodes, freed)
        decreases |nodes| - freed
      {
        cur, freed := cur.next, freed + 1;
      }
      head, tail, size, nodes := null, null, 0, [];
    }

    /** `Ok` exactly when the top of the stack has the kinds the types ask for. */
    method CheckTypes(types: seq<nat>) returns (status: Status)
      requires Valid()
      ensures status == if TopMatches(Contents(), types) then Ok else Trap
    {
      if size < |types| {
        return Trap;
      }
      for i := 0 to |types|
        invariant forall k :: |types| - i <= k < |types| ==>
                  MatchesType(Contents()[|Contents()| - |types| + k], types[k])
      {
        var value := Peek(i);
        if value.None? || !MatchesType(value.value, types[|types| - 1 - i]) {
          assert !MatchesType(Contents()[|Contents()| - |types| + (|types| - 1 - i)], types[|types| - 1 - i]);
          return Trap;
        }
      }
      return Ok;
    }

    /** Pops one value per type into `values`, newest first, up to the first that does not match. */
    method TakeChecked(types: seq<nat>, values: array<Value>) returns (status: Status)
      requires Valid() && |types| <= |Contents()| && values.Length == |types|
      modifies this, nodes, values
      ensures Valid() && nodes <= old(nodes)
      ensures var s := old(Contents()); var n := MatchedFromTop(s, types);
              if n < |types| then status == Trap && Contents() == s[..|s| - n - 1]
              else status == Ok && Contents() == s[..|s| - |types|] &&
                   forall k :: 0 <= k < |types| ==> values[k] == s[|s| - 1 - k]
    {
      hide TopMatches, MatchedFromTop, MatchesType, Valid, Contents;
      ghost var s := Contents();
      for i := 0 to |types|
        invariant Valid() && |nodes| == |s| - i && nodes <= old(nodes) && Contents() == s[..|s| - i]
        invariant forall k :: 0 <= k < i ==> values[k] == s[|s| - 1 - k]
        invariant forall k :: 0 <= k < i ==> Hits(s, types, k)
      {
        var top := Pop();
        assert top == Some(s[|s| - 1 - i]);
        values[i] := top.value;
        if !MatchesType(values[i], types[|types| - 1 - i]) {
          MatchCount(s, types, i);
          return Trap;
        }
      }
      MatchCount(s, types, |types|);
      return Ok;
    }

    /** Pops down to `height`. */
    method CutTo(height: nat)
      requires Valid() && height <= |Contents()|
      modifies this, nodes
      ensures Valid() && nodes <= old(nodes) && Contents() == old(Contents())[..height]
    {
      hide Valid, Contents;
      ghost var s := Contents();
      while size > height
        invariant Valid() && height <= |nodes| <= |s| && nodes <= old(nodes) && Contents() == s[..|nodes|]
        decreases size
      {
        var discarded := Pop();
      }
    }

    /** Pushes the values of `values` from its end to its start. */
    method PutBack(values: array<Value>)
      requires Valid()
      modifies this, nodes
      ensures Valid() && old(nodes) <= nodes && (forall i :: |old(nodes)| <= i < |nodes| ==> fresh(nodes[i]))
      ensures Contents() == old(Contents()) + Backwards(values[..])
    {
      hide Valid, Contents, Backwards;
      ghost var back := Backwards(values[..]);
      var i := values.Length;
      while i > 0
        invariant 0 <= i <= values.Length && Valid() && old(nodes) <= nodes
        invariant forall j :: |old(nodes)| <= j < |nodes| ==> fresh(nodes[j])
        invariant Contents() == old(Contents()) + back[..values.Length - i]
      {
        Push(values[i - 1]);
        i := i - 1;
        assert values[i] == values[..][i] == back[values.Length - 1 - i];
        assert back[..values.Length - i] == back[..values.Length - i - 1] + [values[i]];
      }
    }

    method CutAndPutBack(height: nat, values: array<Value>)
      requires Valid() && height <= |Contents()|
      modifies this, nodes
      ensures Valid() && (forall k :: 0 <= k < |nodes| ==> nodes[k] in old(nodes) || fresh(nodes[k]))
      ensures Contents() == old(Contents())[..height] + Backwards(values[..])
    {
      hide Valid, Contents, Backwards;
      CutTo(height);
      ghost var kept := nodes;
      PutBack(values);
      assert forall k :: 0 <= k < |kept| ==> nodes[k] == kept[k] == old(nodes)[k];
    }

    /** Keeps the lowest `height` values and the top ones the types ask for, through a buffer. */
    method UnwindTo(height: nat, types: seq<nat>) returns (status: Status)
      requires Valid()
      modifies this, nodes
      ensures Valid() && (forall n :: n in nodes ==> n in old(nodes) || fresh(n))
      ensures (status, Contents()) == Unwind(old(Contents()), height, types)
    {
      hide TopMatches, MatchedFromTop, MatchesType, Valid, Contents, Hits, Backwards, Unwind;
      ghost var s := Contents();
      UnwindCases(s, height, types);
      if size < height || (types != [] && size < height + |types|) {
        return Trap;
      }
      var values := new Value[|types|];
      status := TakeChecked(types, values);
      if status != Ok {
        return;
      }
      assert s[..|s| - |types|][..height] == s[..height];
      CutAndPutBack(height, values);
      BackwardsIsTop(s, values[..]);
    }
  }

  lemma UnwindCases(stack: seq<Value>, height: nat, types: seq<nat>)
    ensures if |stack| < height || (types != [] && |stack| < height + |types|)
            then Unwind(stack, height, types) == (Trap, stack)
            else if MatchedFromTop(stack, types) < |types|
            then Unwind(stack, height, types) == (Trap, stack[..|stack| - MatchedFromTop(stack, types) - 1])
            else Unwind(stack, height, types) == (Ok, stack[..height] + stack[|stack| - |types|..])
  {
  }

  lemma BackwardsIsTop(stack: seq<Value>, values: seq<Value>)
    requires |values| <= |stack| && forall k :: 0 <= k < |values| ==> values[k] == stack[|stack| - 1 - k]
    ensures Backwards(values) == stack[|stack| - |values|..]
  {
  }

  /** The number of matches is pinned down by the matches and the mismatch that ends them. */
  lemma MatchCount(stack: seq<Value>, types: seq<nat>, n: nat)
    requires n <= |types| <= |stack| && (forall k :: 0 <= k < n ==> Hits(stack, types, k))
    requires n < |types| ==> !Hits(stack, types, n)
    ensures MatchedFromTop(stack, types) == n
  {
    hide MatchedFromTop, Hits;
  }
}
