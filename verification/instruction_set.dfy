/** The static code: instructions in address order. */
module Instructions {
  /** What decoding an opcode tells: whether it is one of the flow control
      instructions looked for, and where it may continue. */
  datatype Insn = Insn(isFlow: bool, nextAddrs: seq<nat>)

  datatype Code = Code(addrs: seq<nat>, insns: map<nat, Insn>)

  ghost predicate CodeOk(c: Code) {
    Ascending(c.addrs) && forall a :: a in c.insns <==> a in c.addrs
  }

  ghost predicate Ascending(xs: seq<nat>) {
    forall i, j :: 0 <= i < j < |xs| ==> xs[i] < xs[j]
  }

  /** `b` is the instruction after `a` in address order. */
  ghost predicate Adjacent(c: Code, a: nat, b: nat) {
    exists i :: 0 <= i < |c.addrs| - 1 && c.addrs[i] == a && c.addrs[i + 1] == b
  }

  ghost predicate BranchesTo(c: Code, a: nat, b: nat) {
    a in c.insns && c.insns[a].isFlow && b in c.insns[a].nextAddrs
  }

  lemma InsertAscending(xs: seq<nat>, i: nat, a: nat)
    requires Ascending(xs) && i <= |xs|
    requires (i > 0 ==> xs[i - 1] < a) && (i < |xs| ==> a < xs[i])
    ensures Ascending(xs[..i] + [a] + xs[i..])
  {
    var ys := xs[..i] + [a] + xs[i..];
    forall j, k | 0 <= j < k < |ys| ensures ys[j] < ys[k] {
      assert ys[j] == if j < i then xs[j] else if j == i then a else xs[j - 1];
      assert ys[k] == if k < i then xs[k] else if k == i then a else xs[k - 1];
    }
  }

  lemma InsertKeeps(c: Code, i: nat, a: nat, insn: Insn)
    requires CodeOk(c) && i <= |c.addrs|
    requires (i > 0 ==> c.addrs[i - 1] < a) && (i < |c.addrs| ==> a < c.addrs[i])
    ensures CodeOk(Code(c.addrs[..i] + [a] + c.addrs[i..], c.insns[a := insn]))
  {
    InsertAscending(c.addrs, i, a);
    assert c.addrs == c.addrs[..i] + c.addrs[i..];
  }

  /** The address put in its place. */
  function Inserted(xs: seq<nat>, a: nat): seq<nat> {
    if xs == [] || a < xs[0] then [a] + xs else [xs[0]] + Inserted(xs[1..], a)
  }

  lemma {:induction false} InsertedAt(xs: seq<nat>, i: nat, a: nat)
    requires i <= |xs| && (forall j :: 0 <= j < i ==> xs[j] < a) && (i < |xs| ==> a < xs[i])
    ensures Inserted(xs, a) == xs[..i] + [a] + xs[i..]
  {
    if i > 0 {
      InsertedAt(xs[1..], i - 1, a);
      assert xs[..i] == [xs[0]] + xs[1..][..i - 1] && xs[i..] == xs[1..][i - 1..];
    }
  }

  /** The code once the instruction at `a` is known, too. */
  function Known(c: Code, a: nat, insn: Insn): Code {
    if a in c.insns then c else Code(Inserted(c.addrs, a), c.insns[a := insn])
  }

  class InstructionSet {
    var addrs: seq<nat>
    var insns: map<nat, Insn>

    ghost function Model(): Code
      reads this
    {
      Code(addrs, insns)
    }

    ghost predicate Valid()
      reads this
    {
      CodeOk(Model())
    }

    constructor ()
      ensures Valid() && Model() == Code([], map[])
    {
      addrs, insns := [], map[];
    }

    /** Position of the first instruction at or after the address. */
    method LowerBound(a: nat) returns (i: nat)
      requires Valid()
      ensures i <= |addrs|
      ensures forall j :: 0 <= j < i ==> addrs[j] < a
      ensures i < |addrs| ==> a <= addrs[i]
    {
      i := 0;
      while i < |addrs| && addrs[i] < a
        invariant i <= |addrs|
        invariant forall j :: 0 <= j < i ==> addrs[j] < a
      {
        i := i + 1;
      }
    }

    /** `find`: the position of the address, or past the last one. */
    method Find(a: nat) returns (i: nat)
      requires Valid()
      ensures i <= |addrs|
      ensures a in insns ==> i < |addrs| && addrs[i] == a
      ensures a !in insns ==> i == |addrs|
    {
      i := LowerBound(a);
      if i < |addrs| && addrs[i] != a {
        i := |addrs|;
      }
    }

    method AddInstruction(a: nat, insn: Insn)
      requires Valid()
      modifies this
      ensures Valid() && insns == old(insns)[a := insn]
      ensures a in old(insns) ==> addrs == old(addrs)
      ensures a !in old(insns) ==> addrs == Inserted(old(addrs), a)
    {
      var i := LowerBound(a);
      if i == |addrs| || addrs[i] != a {
        InsertKeeps(Model(), i, a, insn);
        InsertedAt(addrs, i, a);
        addrs := addrs[..i] + [a] + addrs[i..];
      }
      insns := insns[a := insn];
    }

    /** Adds the instruction unless one is known at the address. */
    method Learn(a: nat, insn: Insn)
      requires Valid()
      modifies this
      ensures Valid() && a in insns && Model() == Known(old(Model()), a, insn)
    {
      if a !in insns {
        AddInstruction(a, insn);
      }
    }
  }
}
