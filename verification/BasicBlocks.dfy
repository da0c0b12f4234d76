/** Basic blocks as doubly linked lists of instructions: the pointer edits refine edits of a sequence. */
module BasicBlocks {

  class Instruction {
    var next: Instruction?
    var previous: Instruction?

    constructor ()
      ensures next == null && previous == null
    {
      next, previous := null, null;
    }
  }

  function InsertAt<T>(s: seq<T>, k: nat, x: T): (r: seq<T>)
    requires k <= |s|
    ensures |r| == |s| + 1
    ensures forall i :: 0 <= i < |r| ==> r[i] == if i < k then s[i] else if i == k then x else s[i - 1]
  {
    s[..k] + [x] + s[k..]
  }

  function RemoveAt<T>(s: seq<T>, k: nat): (r: seq<T>)
    requires k < |s|
    ensures |r| == |s| - 1
    ensures forall i :: 0 <= i < |r| ==> r[i] == if i < k then s[i] else s[i + 1]
  {
    s[..k] + s[k + 1..]
  }

  /** The element after position i, and the one before it. */
  function After(s: seq<Instruction>, i: int): Instruction?
    requires -1 <= i < |s|
  {
    if i + 1 < |s| then s[i + 1] else null
  }

  function Before(s: seq<Instruction>, i: int): Instruction?
    requires 0 <= i <= |s|
  {
    if i > 0 then s[i - 1] else null
  }

  ghost predicate Distinct(s: seq<Instruction>) {
    forall i, j :: 0 <= i < j < |s| ==> s[i] != s[j]
  }

  /** Forward and backward links are those of the sequence. */
  ghost predicate Linked(s: seq<Instruction>)
    reads s
  {
    && (forall i {:trigger s[i].next} :: 0 <= i < |s| ==> s[i].next == After(s, i))
    && (forall i {:trigger s[i].previous} :: 0 <= i < |s| ==> s[i].previous == Before(s, i))
  }

  lemma DistinctInsert(s: seq<Instruction>, k: nat, x: Instruction)
    requires k <= |s| && Distinct(s) && x !in s
    ensures Distinct(InsertAt(s, k, x))
  {
    var r := InsertAt(s, k, x);
    forall i, j | 0 <= i < j < |r| ensures r[i] != r[j] {
      assert r[i] == (if i < k then s[i] else if i == k then x else s[i - 1]);
      assert r[j] == (if j < k then s[j] else if j == k then x else s[j - 1]);
    }
  }

  lemma DistinctRemove(s: seq<Instruction>, k: nat)
    requires k < |s| && Distinct(s)
    ensures Distinct(RemoveAt(s, k))
  {
  }

  /** The links after an insertion at k: x sits between its neighbours, and only they changed. */
  ghost predicate Spliced(s: seq<Instruction>, k: nat, x: Instruction)
    requires k <= |s|
    reads s, x
  {
    && x.previous == Before(s, k) && x.next == After(s, k - 1)
    && (forall i {:trigger s[i].next} :: 0 <= i < |s| ==> s[i].next == if i == k - 1 then x else After(s, i))
    && (forall i {:trigger s[i].previous} :: 0 <= i < |s| ==> s[i].previous == if i == k then x else Before(s, i))
  }

  lemma LinkedInsert(s: seq<Instruction>, k: nat, x: Instruction)
    requires k <= |s| && Spliced(s, k, x)
    ensures Linked(InsertAt(s, k, x))
  {
    var r := InsertAt(s, k, x);
    forall i | 0 <= i < |r| ensures r[i].next == After(r, i) && r[i].previous == Before(r, i) {
      if i < k {
        assert r[i] == s[i];
      } else if i > k {
        assert r[i] == s[i - 1];
      }
    }
  }

  /** The links after taking out element k: its neighbours meet, and only they changed. */
  ghost predicate Cut(s: seq<Instruction>, k: nat)
    requires k < |s|
    reads s
  {
    && (forall i {:trigger s[i].next} :: 0 <= i < |s| && i != k ==>
          s[i].next == if i == k - 1 then After(s, k) else After(s, i))
    && (forall i {:trigger s[i].previous} :: 0 <= i < |s| && i != k ==>
          s[i].previous == if i == k + 1 then Before(s, k) else Before(s, i))
  }

  lemma LinkedRemove(s: seq<Instruction>, k: nat)
    requires k < |s| && Cut(s, k)
    ensures Linked(RemoveAt(s, k))
  {
    var r := RemoveAt(s, k);
    forall i | 0 <= i < |r| ensures r[i].next == After(r, i) && r[i].previous == Before(r, i) {
      assert r[i] == if i < k then s[i] else s[i + 1];
    }
  }

  class BasicBlock {
    var start: Instruction?
    var end: Instruction?
    ghost var contents: seq<Instruction>

    ghost predicate Valid()
      reads this, contents
    {
      && start == After(contents, -1) && end == Before(contents, |contents|)
      && Distinct(contents) && Linked(contents)
    }

    constructor ()
      ensures Valid() && contents == []
    {
      start, end := null, null;
      contents := [];
    }

    /** The pointer edits of an insertion behind element k - 1. */
    method LinkBehind(at: Instruction, inst: Instruction, ghost k: nat)
      requires Valid() && inst !in contents
      requires 0 < k <= |contents| && contents[k - 1] == at && (k == |contents| ==> inst.next == null)
      modifies `end, contents, inst
      ensures Spliced(contents, k, inst) && end == if k == |contents| then inst else old(end)
    {
      var following := at.next;
      at.next := inst;
      inst.previous := at;
      if following != null {
        inst.next := following;
        following.previous := inst;
      } else {
        end := inst;
      }
    }

    /** The pointer edits of an insertion before element k. */
    method LinkBefore(at: Instruction, inst: Instruction, ghost k: nat)
      requires Valid() && inst !in contents
      requires k < |contents| && contents[k] == at && (k == 0 ==> inst.previous == null)
      modifies `start, contents, inst
      ensures Spliced(contents, k, inst) && start == if k == 0 then inst else old(start)
    {
      var preceding := at.previous;
      at.previous := inst;
      inst.next := at;
      if preceding != null {
        inst.previous := preceding;
        preceding.next := inst;
      } else {
        start := inst;
      }
    }

    /** The pointer edits of deleting element k. */
    method Unlink(target: Instruction, ghost k: nat)
      requires Valid() && k < |contents| && contents[k] == target
      modifies `start, `end, contents
      ensures Cut(contents, k) && target.next == old(target.next) && target.previous == old(target.previous)
      ensures start == if k == 0 then After(contents, 0) else old(start)
      ensures end == if k == |contents| - 1 then Before(contents, k) else old(end)
    {
      var previous, next := target.previous, target.next;
      if previous == null && next == null {
        end, start := null, null;
      } else if previous == null {
        next.previous := null;
        start := next;
      } else if next == null {
        previous.next := null;
        end := previous;
      } else {
        previous.next := next;
        next.previous := previous;
      }
    }

    /** Without a position, insertions go by the first instruction. */
    ghost function At(position: Instruction?): Instruction
      requires contents != []
      reads this
    {
      if position == null then contents[0] else position
    }

    /** Without a position: the only instruction of an empty block, or right after the first one. A link that
        the insertion does not set has to be null already: the next one at the end, both in an empty block. */
    method InsertAfter(position: Instruction?, inst: Instruction) returns (ghost k: nat)
      requires Valid() && inst !in contents && (position != null ==> position in contents)
      requires contents == [] ==> inst.next == null && inst.previous == null
      requires contents != [] && At(position) == contents[|contents| - 1] ==> inst.next == null
      modifies this, contents, inst
      ensures k <= |old(contents)| && (old(contents) == [] ==> k == 0)
      ensures old(contents) != [] ==>
                k > 0 && old(contents)[k - 1] == old(At(position))
      ensures Valid() && contents == InsertAt(old(contents), k, inst)
    {
      var at := position;
      if position == null {
        if start == null {
          start, end := inst, inst;
          contents, k := [inst], 0;
          return;
        }
        at := start;
      }
      k :| 0 <= k < |contents| && contents[k] == at;
      k := k + 1;
      LinkBehind(at, inst, k);
      LinkedInsert(contents, k, inst);
      DistinctInsert(contents, k, inst);
      contents := InsertAt(contents, k, inst);
    }

    /** Without a position: at the front, where the previous link has to be null already. */
    method InsertBefore(position: Instruction?, inst: Instruction) returns (ghost k: nat)
      requires Valid() && inst !in contents && (position != null ==> position in contents)
      requires contents == [] ==> inst.next == null && inst.previous == null
      requires contents != [] && At(position) == contents[0] ==> inst.previous == null
      modifies this, contents, inst
      ensures k <= |old(contents)| && (old(contents) == [] ==> k == 0)
      ensures old(contents) != [] ==>
                k < |old(contents)| && old(contents)[k] == old(At(position))
      ensures Valid() && contents == InsertAt(old(contents), k, inst)
    {
      var at := position;
      if position == null {
        if start == null {
          start, end := inst, inst;
          contents, k := [inst], 0;
          return;
        }
        at := start;
      }
      k :| 0 <= k < |contents| && contents[k] == at;
      LinkBefore(at, inst, k);
      LinkedInsert(contents, k, inst);
      DistinctInsert(contents, k, inst);
      contents := InsertAt(contents, k, inst);
    }

    /** Fails on an instruction of another block; the links of the deleted one stay as they were. */
    method Delete(target: Instruction) returns (ok: bool, ghost k: nat)
      requires Valid()
      modifies this, contents
      ensures Valid() && (ok <==> target in old(contents))
      ensures !ok ==> contents == old(contents)
      ensures ok ==> k < |old(contents)| && old(contents)[k] == target && contents == RemoveAt(old(contents), k)
      ensures target.next == old(target.next) && target.previous == old(target.previous)
    {
      k := 0;
      var current := start;
      while current != null && current != target
        invariant k <= |contents| && current == (if k < |contents| then contents[k] else null)
        invariant target !in contents[..k]
        decreases |contents| - k
      {
        current := current.next;
        k := k + 1;
      }
      ok := current != null;
      if ok {
        Unlink(target, k);
        LinkedRemove(contents, k);
        DistinctRemove(contents, k);
        contents := RemoveAt(contents, k);
      }
    }

    /** Iteration yields the sequence. */
    method Iterate() returns (r: seq<Instruction>)
      requires Valid()
      ensures r == contents
    {
      r := [];
      var current := start;
      while current != null
        invariant r <= contents
        invariant current == if |r| < |contents| then contents[|r|] else null
        decreases |contents| - |r|
      {
        r := r + [current];
        current := current.next;
      }
    }

    method Length() returns (count: nat)
      requires Valid()
      ensures count == |contents|
    {
      count := 0;
      if start != null {
        var inst := start;
        count := 1;
        while inst.next != null
          invariant 1 <= count <= |contents| && inst == contents[count - 1]
          decreases |contents| - count
        {
          inst := inst.next;
          count := count + 1;
        }
      }
    }
  }
}
