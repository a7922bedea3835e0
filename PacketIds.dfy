/**
 * Packet identifiers (section 2.3.1 of MQTT 3.1.1): the nonzero 16-bit values, handed out by
 * the endpoint from a counter that wraps around and skips 0. This module holds the arithmetic
 * of that counter, the counting facts behind the exhaustion check, and the exhaustion check
 * itself, both as written in the endpoint and corrected.
 */
module PacketIds {
  import opened Wire

  /** The number of usable packet identifiers: 1 .. 0xffff. */
  const IdCount: nat := 0xffff

  /** `++packet_id_master_` on a `std::uint16_t`: wraps from 0xffff to 0. */
  function Increment16(m: U16): U16
  {
    (m + 1) % 0x1_0000
  }

  /** One step of the allocator's do-while: increment, and increment again if that gave 0. */
  function Next(m: U16): U16
  {
    var n := Increment16(m);
    if n == 0 then Increment16(n) else n
  }

  /** `Next` never yields the reserved identifier 0 and walks 1, 2, .., 0xffff, 1, .. */
  lemma NextIsNonzeroSuccessor(m: U16)
    ensures Next(m) != 0
    ensures m < 0xffff ==> Next(m) == m + 1
    ensures m == 0xffff ==> Next(m) == 1
  {
  }

  /** How many `Next` steps lead from `a` to `x`, both nonzero. */
  function Distance(a: U16, x: U16): (d: nat)
    requires a != 0 && x != 0
    ensures d < IdCount
    ensures d == 0 <==> a == x
  {
    (x - a) % IdCount
  }

  /** Each `Next` step from a nonzero identifier moves one further from the start. */
  lemma DistanceNext(a: U16, m: U16)
    requires a != 0 && m != 0
    requires Distance(a, m) < IdCount - 1
    ensures Distance(a, Next(m)) == Distance(a, m) + 1
  {
    if m == 0xffff {
      assert Next(m) == 1;
      assert (m - a) % IdCount == 0xffff - a;
    } else {
      assert Next(m) == m + 1;
    }
  }

  /** Two nonzero identifiers at the same distance from `a` are the same identifier. */
  lemma DistanceInjective(a: U16, x: U16, y: U16)
    requires a != 0 && x != 0 && y != 0
    ensures x != y ==> Distance(a, x) != Distance(a, y)
  {
  }

  /** The identifiers in `[lo, hi)`. */
  ghost function IdRange(lo: int, hi: int): set<U16>
    requires 0 <= lo <= hi <= 0x1_0000
    decreases hi - lo
  {
    if lo == hi then {} else IdRange(lo, hi - 1) + {(hi - 1) as U16}
  }

  lemma {:induction false} IdRangeContents(lo: int, hi: int)
    requires 0 <= lo <= hi <= 0x1_0000
    ensures |IdRange(lo, hi)| == hi - lo
    ensures forall x: U16 :: x in IdRange(lo, hi) <==> lo <= x < hi
    decreases hi - lo
  {
    if lo < hi {
      IdRangeContents(lo, hi - 1);
    }
  }

  lemma {:induction false} SubsetSize(a: set<U16>, b: set<U16>)
    requires a <= b
    ensures |a| <= |b|
    decreases |a|
  {
    if a != {} {
      var x :| x in a;
      SubsetSize(a - {x}, b - {x});
    }
  }

  /** All usable identifiers: there are exactly `IdCount` of them. */
  lemma UsableIdsCount()
    ensures |IdRange(1, 0x1_0000)| == IdCount
    ensures forall x: U16 :: x != 0 <==> x in IdRange(1, 0x1_0000)
  {
    IdRangeContents(1, 0x1_0000);
  }

  /** A set of fewer than `IdCount` identifiers leaves a nonzero identifier free. */
  lemma FreeIdExists(ids: set<U16>) returns (f: U16)
    requires |ids| < IdCount
    ensures f != 0 && f !in ids
  {
    if forall x: U16 :: x != 0 ==> x in ids {
      UsableIdsCount();
      SubsetSize(IdRange(1, 0x1_0000), ids);
      assert false;
    }
    f :| f != 0 && f !in ids;
  }

  /**
   * `id` is the first identifier not in `ids` that the allocator meets when it counts on
   * from `master`: every nonzero identifier it passes on the way is in use.
   */
  ghost predicate FirstFreeAfter(ids: set<U16>, master: U16, id: U16)
  {
    var start := Next(master);
    && start != 0 && id != 0 && id !in ids
    && forall x: U16 :: x != 0 && Distance(start, x) < Distance(start, id) ==> x in ids
  }

  /** The exhaustion test of `acquire_unique_packet_id` as the endpoint writes it. */
  predicate ExhaustedAsWritten(ids: set<U16>)
  {
    |ids| == 0xffff - 1
  }

  /**
   * `register_packet_id` accepts any nonzero identifier without a limit, so the endpoint can
   * hold all of them. The written test lets that set through, and then no identifier can be
   * inserted: the allocation loop never ends.
   */
  lemma AsWrittenGuardMissesFullSet()
    ensures !ExhaustedAsWritten(IdRange(1, 0x1_0000))
    ensures forall x: U16 :: Next(x) in IdRange(1, 0x1_0000)
  {
    UsableIdsCount();
    forall x: U16 ensures Next(x) in IdRange(1, 0x1_0000) {
      NextIsNonzeroSuccessor(x);
    }
  }

  /**
   * The written test also refuses a set with one identifier still free: with 1 .. 0xfffe in
   * use, 0xffff is free and the test fails the allocation all the same.
   */
  lemma AsWrittenGuardRefusesFreeId()
    ensures ExhaustedAsWritten(IdRange(1, 0xffff))
    ensures 0xffff != 0 && 0xffff !in IdRange(1, 0xffff)
  {
    IdRangeContents(1, 0xffff);
  }

  /**
   * The corrected exhaustion test, as the function's documentation states it: every usable
   * identifier is in use. Identifier 0 does not count; a restored message can bring it in.
   */
  predicate Exhausted(ids: set<U16>)
  {
    |ids - {0}| >= IdCount
  }

  /** A subset as large as its superset is the whole superset. */
  lemma {:induction false} SubsetFull(a: set<U16>, b: set<U16>)
    requires a <= b && |a| >= |b|
    ensures a == b
  {
    if x :| x in b && x !in a {
      SubsetSize(a, b - {x});
    }
  }

  /** The corrected test refuses exactly when no nonzero identifier is free. */
  lemma ExhaustedIffFull(ids: set<U16>)
    ensures Exhausted(ids) <==> forall x: U16 :: x != 0 ==> x in ids
  {
    UsableIdsCount();
    var used := ids - {0};
    var usable := IdRange(1, 0x1_0000);
    if forall x: U16 :: x != 0 ==> x in ids {
      assert usable <= used;
      SubsetSize(usable, used);
    }
    if Exhausted(ids) {
      assert used <= usable;
      SubsetSize(used, usable);
      SubsetFull(used, usable);
      forall x: U16 | x != 0 ensures x in ids {
        assert x in usable;
      }
    }
  }

  /** When the corrected test passes, a free identifier exists and the loop reaches it. */
  lemma NotExhaustedLeavesFreeId(ids: set<U16>)
    requires !Exhausted(ids)
    ensures exists f: U16 :: f != 0 && f !in ids
  {
    var f := FreeIdExists(ids - {0});
  }
}
