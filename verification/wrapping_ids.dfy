/** The 32-bit counters behind request and session ids: one up, wrapping, never zero. */
module WrappingIds {

  function Modulus(): nat { 0x1_0000_0000 }

  type Id = x: int | 1 <= x < 0x1_0000_0000 witness 1

  /** `wrapping_add(1).max(1)`. */
  function NextId(id: Id): Id {
    var sum := (id + 1) % Modulus();
    if sum < 1 then 1 else sum
  }

  /** The id after `n` steps from 1. */
  function IdAt(n: nat): Id {
    if n == 0 then 1 else NextId(IdAt(n - 1))
  }

  /** How many ids there are before they repeat. */
  function Period(): nat { 0xFFFF_FFFF }

  function Offset(n: nat): nat {
    n % 0xFFFF_FFFF
  }

  lemma OffsetNext(n: nat)
    ensures Offset(n + 1) == if Offset(n) + 1 == 0xFFFF_FFFF then 0 else Offset(n) + 1
  {}

  lemma NextIdIs(id: Id)
    ensures NextId(id) == if id == 0xFFFF_FFFF then 1 else id + 1
  {}

  lemma {:induction false} IdAtIs(n: nat)
    ensures IdAt(n) == 1 + Offset(n)
  {
    hide Offset, NextId;
    if n == 0 {
      OffsetStart();
    } else {
      IdAtIs(n - 1);
      OffsetNext(n - 1);
      NextIdIs(IdAt(n - 1));
    }
  }

  lemma OffsetStart()
    ensures Offset(0) == 0
  {}

  lemma SameRemainder(i: nat, j: nat)
    requires i <= j
    ensures Offset(i) == Offset(j) <==> (j - i) % Period() == 0
  {}

  /** Two ids are equal exactly if they are a multiple of 2^32 - 1 steps apart. */
  lemma {:induction false} SameIdIff(i: nat, j: nat)
    requires i <= j
    ensures IdAt(i) == IdAt(j) <==> (j - i) % Period() == 0
  {
    hide Offset, IdAt, Period;
    IdAtIs(i);
    IdAtIs(j);
    SameRemainder(i, j);
  }

  /** Any 2^32 - 1 consecutive ids are pairwise distinct. */
  lemma {:induction false} IdsDistinct(i: nat, j: nat)
    requires i < j < i + Period()
    ensures IdAt(i) != IdAt(j)
  {
    hide IdAt;
    SameIdIff(i, j);
  }
}
