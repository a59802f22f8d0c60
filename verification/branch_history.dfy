/** The branch history of LEI and the index that finds the last time a target was
    reached. */
module BranchHistory {
  const MAX_SIZE_BUFFER: nat := 2000

  /** A branch taken in the interpreter, and the edge the automaton took with it. */
  datatype Branch = Branch(src: nat, tgt: nat, edge: nat)

  type Index = map<nat, nat>

  // ---------- The index agrees with the history ----------

  ghost predicate OccursIn(buf: seq<Branch>, t: nat, from: nat) {
    exists j :: from <= j < |buf| && buf[j].tgt == t
  }

  /** `i` is the last position with target `t`. */
  ghost predicate LastAt(buf: seq<Branch>, t: nat, i: nat) {
    i < |buf| && buf[i].tgt == t && !OccursIn(buf, t, i + 1)
  }

  ghost predicate IndexOk(buf: seq<Branch>, index: Index) {
    |buf| <= MAX_SIZE_BUFFER + 1 && forall t :: t in index ==> LastAt(buf, t, index[t])
  }

  // ---------- A branch is added ----------

  /** The history a branch is added to: it starts afresh when it is full. */
  function Room(buf: seq<Branch>): seq<Branch> {
    if |buf| > MAX_SIZE_BUFFER then [] else buf
  }

  function RoomIndex(buf: seq<Branch>, index: Index): Index {
    if |buf| > MAX_SIZE_BUFFER then map[] else index
  }

  lemma AddKeeps(buf: seq<Branch>, index: Index, b: Branch)
    requires IndexOk(buf, index)
    ensures IndexOk(Room(buf) + [b], RoomIndex(buf, index)[b.tgt := |Room(buf)|])
  {
    var longer, longerIndex := Room(buf) + [b], RoomIndex(buf, index)[b.tgt := |Room(buf)|];
    forall t | t in longerIndex ensures LastAt(longer, t, longerIndex[t]) {
      if t != b.tgt {
        assert LastAt(Room(buf), t, longerIndex[t]);
      }
    }
  }

  /** The position looked up before the index is updated is the previous time the
      target was reached: it was not reached in between. */
  lemma PreviousTime(buf: seq<Branch>, index: Index, b: Branch)
    requires IndexOk(buf, index) && b.tgt in RoomIndex(buf, index)
    ensures var longer, prev := Room(buf) + [b], RoomIndex(buf, index)[b.tgt];
            && prev < |longer| - 1 && longer[prev].tgt == b.tgt == longer[|longer| - 1].tgt
            && forall j :: prev < j < |longer| - 1 ==> longer[j].tgt != b.tgt
  {
    assert LastAt(Room(buf), b.tgt, RoomIndex(buf, index)[b.tgt]);
  }

  // ---------- The history is cut back ----------

  /** The index without the targets from position `from` on. */
  function Erased(buf: seq<Branch>, index: Index, from: nat): Index
    decreases |buf| - from
  {
    if from >= |buf| then index
    else Erased(buf, index, from + 1) - {buf[from].tgt}
  }

  lemma {:induction false} ErasedIs(buf: seq<Branch>, index: Index, from: nat)
    ensures forall t :: t in Erased(buf, index, from) <==> t in index && !OccursIn(buf, t, from)
    ensures forall t :: t in Erased(buf, index, from) ==> Erased(buf, index, from)[t] == index[t]
    decreases |buf| - from
  {
    if from < |buf| {
      ErasedIs(buf, index, from + 1);
      forall t ensures OccursIn(buf, t, from) <==> OccursIn(buf, t, from + 1) || t == buf[from].tgt {
        if OccursIn(buf, t, from) {
          var j :| from <= j < |buf| && buf[j].tgt == t;
        }
      }
    }
  }

  /** Cutting the history back to position `last` keeps the index right, and loses
      exactly the targets that were reached after `last`. */
  lemma CutKeeps(buf: seq<Branch>, index: Index, last: nat)
    requires IndexOk(buf, index) && last < |buf|
    ensures IndexOk(buf[..last + 1], Erased(buf, index, last + 1))
    ensures forall t :: t in Erased(buf, index, last + 1) <==> t in index && !OccursIn(buf, t, last + 1)
  {
    var cut, left := buf[..last + 1], Erased(buf, index, last + 1);
    ErasedIs(buf, index, last + 1);
    forall t | t in left ensures LastAt(cut, t, left[t]) {
      assert LastAt(buf, t, index[t]);
      assert index[t] <= last;
      assert forall j :: index[t] + 1 <= j < |cut| ==> cut[j] == buf[j];
    }
  }

  /** The index is complete when it knows every target in the history. */
  ghost predicate Complete(buf: seq<Branch>, index: Index) {
    forall i :: 0 <= i < |buf| ==> buf[i].tgt in index
  }

  /** Adding a branch keeps the index complete. */
  lemma AddComplete(buf: seq<Branch>, index: Index, b: Branch)
    requires Complete(buf, index)
    ensures Complete(Room(buf) + [b], RoomIndex(buf, index)[b.tgt := |Room(buf)|])
  {
    var longer := Room(buf) + [b];
    forall i | 0 <= i < |longer| ensures longer[i].tgt in RoomIndex(buf, index)[b.tgt := |Room(buf)|] {
      assert i < |Room(buf)| ==> longer[i] == buf[i];
    }
  }

  /** Cutting it back keeps it complete if and only if no target that stays was
      reached again in what is cut off. */
  lemma CutCompleteIff(buf: seq<Branch>, index: Index, last: nat)
    requires IndexOk(buf, index) && Complete(buf, index) && last < |buf|
    ensures Complete(buf[..last + 1], Erased(buf, index, last + 1)) <==>
              forall i :: 0 <= i <= last ==> !OccursIn(buf, buf[i].tgt, last + 1)
  {
    var cut, left := buf[..last + 1], Erased(buf, index, last + 1);
    CutKeeps(buf, index, last);
    assert forall i :: 0 <= i <= last ==> cut[i] == buf[i] && buf[i].tgt in index;
  }

  /** The cut after a trace has been formed never meets that condition: the target
      of the trace stays at `last`, and the index has lost it. */
  lemma CutLosesTarget(buf: seq<Branch>, index: Index, last: nat)
    requires IndexOk(buf, index) && last < |buf| - 1 && buf[last].tgt == buf[|buf| - 1].tgt
    ensures buf[last].tgt !in Erased(buf, index, last + 1) && !Complete(buf[..last + 1], Erased(buf, index, last + 1))
  {
    CutKeeps(buf, index, last);
    assert OccursIn(buf, buf[last].tgt, last + 1);
    assert buf[..last + 1][last].tgt == buf[last].tgt;
  }

  /** The history as LEI keeps it. */
  class History {
    var buf: seq<Branch>
    var bufHash: Index

    ghost predicate Valid()
      reads this
    {
      IndexOk(buf, bufHash)
    }

    constructor ()
      ensures Valid() && buf == [] && bufHash == map[]
    {
      buf, bufHash := [], map[];
    }

    /** `circularBufferInsert`. */
    method Insert(src: nat, tgt: nat, edge: nat)
      modifies this
      ensures buf == Room(old(buf)) + [Branch(src, tgt, edge)]
      ensures bufHash == RoomIndex(old(buf), old(bufHash))
    {
      if |buf| > MAX_SIZE_BUFFER {
        buf := [];
        bufHash := map[];
      }
      buf := buf + [Branch(src, tgt, edge)];
    }

    /** Adds a branch to the history and to the index; the previous time its target
        was reached, if the index knows one. */
    method Add(src: nat, tgt: nat, edge: nat) returns (found: bool, prev: nat)
      requires Valid()
      modifies this
      ensures Valid() && buf == Room(old(buf)) + [Branch(src, tgt, edge)]
      ensures bufHash == RoomIndex(old(buf), old(bufHash))[tgt := |buf| - 1]
      ensures found <==> tgt in RoomIndex(old(buf), old(bufHash))
      ensures found ==> prev == RoomIndex(old(buf), old(bufHash))[tgt] < |buf| - 1
      ensures found ==> buf[prev].tgt == tgt && forall j :: prev < j < |buf| - 1 ==> buf[j].tgt != tgt
    {
      AddKeeps(buf, bufHash, Branch(src, tgt, edge));
      if tgt in RoomIndex(buf, bufHash) {
        PreviousTime(buf, bufHash, Branch(src, tgt, edge));
      }
      Insert(src, tgt, edge);
      found, prev := tgt in bufHash, 0;
      if found {
        prev := bufHash[tgt];
      }
      bufHash := bufHash[tgt := |buf| - 1];
    }

    /** Removes all branches after position `last`. */
    method CutBack(last: nat)
      requires Valid() && last < |buf|
      modifies this
      ensures Valid() && buf == old(buf)[..last + 1] && bufHash == Erased(old(buf), old(bufHash), last + 1)
    {
      CutKeeps(buf, bufHash, last);
      ErasedIs(buf, bufHash, last + 1);
      ghost var before := bufHash;
      var i := last + 1;
      while i < |buf|
        invariant last + 1 <= i <= |buf| && buf == old(buf)
        invariant forall t :: t in bufHash <==> t in before && !(exists j :: last < j < i && buf[j].tgt == t)
        invariant forall t :: t in bufHash ==> bufHash[t] == before[t]
      {
        bufHash := bufHash - {buf[i].tgt};
        i := i + 1;
      }
      buf := buf[..last + 1];
      assert bufHash == Erased(old(buf), before, last + 1);
    }
  }
}
