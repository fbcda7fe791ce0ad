/** The QSFP module driver: the signal lines a platform reports, the
    insertion handshake that caches the identity EEPROM, and the four-lane
    transmitter-disable mask. */
module Sfp {
  import opened Registers

  // Registers of the SFF-8636 memory map the driver uses.

  /** Lower page byte 2: status; bit 0 is Data_Not_Ready. */
  const Status := Reg8(2)
  /** Lower page byte 86: one transmitter-disable bit per lane. */
  const TxDisable := Reg8(86)
  /** Lower page byte 127: which upper page bytes 128..255 show. */
  const UpperMemoryMapPageSelect := Reg8(127)

  /** Word i of the 128-byte upper memory, at bytes 128 + 2i and 129 + 2i. */
  function UpperMemory(i: nat): (r: Reg16)
    ensures 128 <= r.offset && r.offset - 128 == 2 * i
  {
    Reg16(128 + 2 * i)
  }

  /** The cached EEPROM image: the 128 bytes of upper page 00h as 64 words. */
  const EepromWords: nat := 64

  /** How long the insertion handshake waits for the module, in milliseconds. */
  const ReadyTimeoutMs: nat := 100

  /** The signals a platform reports per module; the enumeration itself is not
      part of this model, only these two members and the count are used. */
  const QsfpModuleIsPresent: nat := 0
  const QsfpInterruptStatus: nat := 1
  const QsfpNSignal: nat := 4

  /** How a handshake ends: normally, or with the "ready timeout" panic. */
  datatype Outcome = Done | ReadyTimeout

  // The device traffic of the insertion handshake.

  /** The status byte of a module that is not ready yet. */
  predicate NotReady(status: bv8) {
    status & 1 != 0
  }

  /** One read of the status register per entry of statuses. */
  function StatusReads(statuses: seq<bv8>): (t: seq<Transaction>)
    ensures |t| == |statuses|
    ensures forall k :: 0 <= k < |t| ==> t[k] == Read(Status.offset, [statuses[k]])
  {
    if statuses == [] then []
    else StatusReads(statuses[..|statuses| - 1]) + [Read(Status.offset, [statuses[|statuses| - 1]])]
  }

  /** One more poll adds one read at the end. */
  lemma StatusReadsAppend(statuses: seq<bv8>, status: bv8)
    ensures StatusReads(statuses + [status]) == StatusReads(statuses) + [Read(Status.offset, [status])]
  {
    assert (statuses + [status])[..|statuses|] == statuses;
  }

  /** The polls so far all saw Data_Not_Ready, and only the last deadline
      check found the deadline expired. */
  lemma PollsTimedOut(statuses: seq<bv8>, elapsed: nat -> nat)
    requires |statuses| >= 1 && NotReady(statuses[|statuses| - 1])
    requires elapsed(|statuses| - 1) >= ReadyTimeoutMs
    requires forall j :: 0 <= j < |statuses| - 1 ==> NotReady(statuses[j]) && elapsed(j) < ReadyTimeoutMs
    ensures TimedOutPolls(statuses, elapsed)
  {
  }

  /** The last poll found Data_Not_Ready clear, every earlier one found it
      set and a deadline not yet expired. */
  lemma PollsReady(statuses: seq<bv8>, elapsed: nat -> nat)
    requires |statuses| >= 1 && !NotReady(statuses[|statuses| - 1])
    requires forall j :: 0 <= j < |statuses| - 1 ==> NotReady(statuses[j]) && elapsed(j) < ReadyTimeoutMs
    ensures ReadyPolls(statuses, elapsed)
  {
  }

  /** The statuses polled until the module became ready: every poll but the
      last saw Data_Not_Ready and was followed by a deadline check
      (elapsed(k) is the time at the k-th check) that had not expired. */
  ghost predicate ReadyPolls(statuses: seq<bv8>, elapsed: nat -> nat) {
    |statuses| >= 1 && !NotReady(statuses[|statuses| - 1]) &&
    forall k :: 0 <= k < |statuses| - 1 ==> NotReady(statuses[k]) && elapsed(k) < ReadyTimeoutMs
  }

  /** The statuses polled until the deadline expired: every poll saw
      Data_Not_Ready, and only the last deadline check found it expired. */
  ghost predicate TimedOutPolls(statuses: seq<bv8>, elapsed: nat -> nat) {
    |statuses| >= 1 && elapsed(|statuses| - 1) >= ReadyTimeoutMs &&
    (forall k :: 0 <= k < |statuses| ==> NotReady(statuses[k])) &&
    forall k :: 0 <= k < |statuses| - 1 ==> elapsed(k) < ReadyTimeoutMs
  }

  /** Reading the page select, and writing 0 to it unless it already is 0. */
  function PageSelectZero(page: bv8): (t: seq<Transaction>)
    ensures |t| == if page == 0 then 1 else 2
    ensures t[0] == Read(UpperMemoryMapPageSelect.offset, [page])
    ensures page != 0 ==> t[1] == Write(UpperMemoryMapPageSelect.offset, [0])
  {
    [Read(UpperMemoryMapPageSelect.offset, [page])] +
    if page != 0 then [Write(UpperMemoryMapPageSelect.offset, [0])] else []
  }

  /** The reads of upper-memory words 0, 1, ... in order, returning words. */
  function WordReads(words: seq<Uint16>): (t: seq<Transaction>)
    ensures |t| == |words|
    ensures forall i :: 0 <= i < |t| ==> t[i] == Read(UpperMemory(i).offset, Encode16(words[i]))
  {
    seq(|words|, i requires 0 <= i < |words| => Read(UpperMemory(i).offset, Encode16(words[i])))
  }

  /** t is the traffic of a handshake for a module that is present (inserted) or
      removed (!inserted), ending with outcome, that left words in the EEPROM cache:
      a removal touches no register; an insertion polls the status until the
      module is ready (or the deadline expires, and then does nothing else),
      forces page 0, reads the 64 words of upper memory in order and leaves
      page 3 selected. */
  ghost predicate PresentTraffic(inserted: bool, t: seq<Transaction>, words: seq<Uint16>, outcome: Outcome, elapsed: nat -> nat) {
    if !inserted then t == [] && outcome == Done
    else match outcome
      case ReadyTimeout =>
        exists statuses :: TimedOutPolls(statuses, elapsed) && t == StatusReads(statuses)
      case Done =>
        exists statuses, page :: ReadyPolls(statuses, elapsed) && t == ReadyTraffic(statuses, page, words)
  }

  /** One QSFP module: its signals, its cached EEPROM image and the cached
      transmitter-disable mask, with the Access of the bus it sits on. */
  class QsfpModule {
    const a: Access
    const signalValues: array<bool>
    const eeprom: array<Uint16>
    var txDisable: bv8
    /** How often the Interrupt and invalidateCache hooks have run. */
    ghost var interrupts: nat
    ghost var invalidations: nat

    ghost predicate Valid()
      reads this
    {
      signalValues.Length == QsfpNSignal && eeprom.Length == EepromWords && txDisable & 0xF0 == 0
    }

    /** Init: a module on Access a, with every signal low, an all-zero EEPROM
        image and every lane enabled. */
    constructor Init(a: Access)
      ensures Valid() && this.a == a
      ensures signalValues[..] == seq(QsfpNSignal, _ => false)
      ensures eeprom[..] == seq(EepromWords, _ => 0)
      ensures txDisable == 0 && interrupts == 0 && invalidations == 0
      ensures fresh(signalValues) && fresh(eeprom)
    {
      this.a := a;
      signalValues := new bool[QsfpNSignal](_ => false);
      eeprom := new Uint16[EepromWords](_ => 0);
      txDisable := 0;
      interrupts := 0;
      invalidations := 0;
    }

    function GetSignal(s: nat): (v: bool)
      requires Valid() && s < QsfpNSignal
      reads this, signalValues
      ensures v == signalValues[s]
    {
      signalValues[s]
    }

    /** The Interrupt hook: it does nothing to the device or the module. */
    method Interrupt()
      modifies this
      ensures interrupts == old(interrupts) + 1
      ensures invalidations == old(invalidations) && txDisable == old(txDisable)
    {
      interrupts := interrupts + 1;
    }

    /** The invalidateCache hook: it does nothing to the device or the module
        (in particular the EEPROM image stays as it is). */
    method InvalidateCache()
      modifies this
      ensures invalidations == old(invalidations) + 1
      ensures interrupts == old(interrupts) && txDisable == old(txDisable)
    {
      invalidations := invalidations + 1;
    }

    /** Present: the module was inserted or removed.  elapsed is
        the clock the 100 ms deadline is checked against; it is assumed to
        reach the deadline eventually. */
    method Present(inserted: bool, elapsed: nat -> nat) returns (outcome: Outcome)
      requires Valid()
      requires exists k :: elapsed(k) >= ReadyTimeoutMs
      modifies this, eeprom, a
      ensures Valid() && txDisable == old(txDisable) && interrupts == old(interrupts)
      ensures invalidations == old(invalidations) + (if inserted then 0 else 1)
      ensures |old(a.log)| <= |a.log| && a.log[..|old(a.log)|] == old(a.log)
      ensures PresentTraffic(inserted, a.log[|old(a.log)|..], eeprom[..], outcome, elapsed)
      ensures !inserted || outcome == ReadyTimeout ==> eeprom[..] == old(eeprom[..])
    {
      if !inserted {
        InvalidateCache();
        assert a.log[|old(a.log)|..] == [];
        return Done;
      }
      ghost var log0 := a.log;
      ghost var statuses;
      outcome, statuses := WaitReady(elapsed);
      if outcome == ReadyTimeout {
        assert a.log[|old(a.log)|..] == StatusReads(statuses);
        return;
      }
      ghost var page := SelectPageZero();
      ReadEeprom();
      Reg8Set(a, UpperMemoryMapPageSelect, 3);
      assert a.log[|old(a.log)|..] == ReadyTraffic(statuses, page, eeprom[..]);
    }

    /** The wait for the module to become ready: the status is polled until
        Data_Not_Ready is clear, and after each poll that finds it set the
        deadline is checked; an expired deadline ends the wait. */
    method WaitReady(elapsed: nat -> nat) returns (outcome: Outcome, ghost statuses: seq<bv8>)
      requires exists k :: elapsed(k) >= ReadyTimeoutMs
      modifies a
      ensures a.log == old(a.log) + StatusReads(statuses)
      ensures outcome == Done ==> ReadyPolls(statuses, elapsed)
      ensures outcome == ReadyTimeout ==> TimedOutPolls(statuses, elapsed)
    {
      ghost var deadline: nat :| elapsed(deadline) >= ReadyTimeoutMs;
      var k := 0;
      var status := Reg8Get(a, Status);
      statuses := [status];
      while status & 1 != 0
        invariant |statuses| == k + 1 && statuses[k] == status
        invariant a.log == old(a.log) + StatusReads(statuses)
        invariant forall j :: 0 <= j < k ==> NotReady(statuses[j]) && elapsed(j) < ReadyTimeoutMs
        invariant k <= deadline
        decreases deadline - k
      {
        if elapsed(k) >= ReadyTimeoutMs {
          PollsTimedOut(statuses, elapsed);
          return ReadyTimeout, statuses;
        }
        k := k + 1;
        status := Reg8Get(a, Status);
        StatusReadsAppend(statuses, status);
        assert a.log == old(a.log) + StatusReads(statuses + [status]);
        statuses := statuses + [status];
      }
      PollsReady(statuses, elapsed);
      outcome := Done;
    }

    /** Page 0 is selected, by a write only when another page is. */
    method SelectPageZero() returns (ghost page: bv8)
      modifies a
      ensures a.log == old(a.log) + PageSelectZero(page)
    {
      var current := Reg8Get(a, UpperMemoryMapPageSelect);
      if current != 0 {
        Reg8Set(a, UpperMemoryMapPageSelect, 0);
      }
      page := current;
    }

    /** The 64 words of upper memory are read in order into the image. */
    method ReadEeprom()
      requires Valid()
      modifies a, eeprom
      ensures a.log == old(a.log) + WordReads(eeprom[..])
    {
      var i := 0;
      while i < EepromWords
        invariant 0 <= i <= EepromWords
        invariant a.log == old(a.log) + WordReads(eeprom[..i])
      {
        var w := Reg16Get(a, UpperMemory(i));
        eeprom[i] := w;
        assert WordReads(eeprom[..i + 1]) == WordReads(eeprom[..i]) + [Read(UpperMemory(i).offset, Encode16(w))];
        i := i + 1;
      }
      assert eeprom[..i] == eeprom[..];
    }

    /** SetSignal: records the new level of signal s and returns the previous
        one.  Only a change acts: the presence signal runs the handshake, and
        the interrupt signal calls the Interrupt hook on a rising edge. */
    method SetSignal(s: nat, level: bool, elapsed: nat -> nat) returns (previous: bool, outcome: Outcome)
      requires Valid() && s < QsfpNSignal
      requires exists k :: elapsed(k) >= ReadyTimeoutMs
      modifies this, signalValues, eeprom, a
      ensures Valid() && txDisable == old(txDisable)
      ensures previous == old(signalValues[s])
      ensures signalValues[..] == old(signalValues[..])[s := level] && GetSignal(s) == level
      ensures interrupts == old(interrupts) +
        (if s == QsfpInterruptStatus && !previous && level then 1 else 0)
      ensures s == QsfpModuleIsPresent && previous != level ==>
        invalidations == old(invalidations) + (if level then 0 else 1) &&
        |old(a.log)| <= |a.log| && a.log[..|old(a.log)|] == old(a.log) &&
        PresentTraffic(level, a.log[|old(a.log)|..], eeprom[..], outcome, elapsed) &&
        (!level || outcome == ReadyTimeout ==> eeprom[..] == old(eeprom[..]))
      ensures s != QsfpModuleIsPresent || previous == level ==>
        a.log == old(a.log) && eeprom[..] == old(eeprom[..]) &&
        invalidations == old(invalidations) && outcome == Done
    {
      previous := signalValues[s];
      signalValues[s] := level;
      outcome := Done;
      if previous != level {
        if s == QsfpModuleIsPresent {
          outcome := Present(level, elapsed);
        } else if s == QsfpInterruptStatus {
          if level {
            Interrupt();
          }
        }
      }
    }

    /** TxEnable: lanes whose enableMask bit is clear are disabled, lanes in
        laneMask whose enableMask bit is set are enabled; the register is
        written only when the mask changes.  Returns the previous mask. */
    method TxEnable(enableMask: bv64, laneMask: bv64) returns (was: bv64)
      requires Valid()
      modifies this, a
      ensures Valid()
      ensures was == old(txDisable) as bv64
      ensures txDisable == NextTxDisable(old(txDisable), enableMask, laneMask)
      ensures a.log == old(a.log) +
        (if txDisable != old(txDisable) then [Write(TxDisable.offset, [txDisable])] else [])
      ensures interrupts == old(interrupts) && invalidations == old(invalidations)
    {
      var previous := txDisable;
      var next := NextTxDisable(previous, enableMask, laneMask);
      if next != previous {
        Reg8Set(a, TxDisable, next);
        txDisable := next;
      }
      was := previous as bv64;
    }
  }

  // The transmitter-disable mask.

  /** Go's byte(m): the low eight bits. */
  function Low8(m: bv64): (b: bv8)
    ensures b as bv64 == m & 0xFF
  {
    (m & 0xFF) as bv8
  }

  /** Whether bit lane of a lane mask is set (for TX disable: lane disabled). */
  predicate LaneSet(m: bv8, lane: nat)
    requires lane < 8
  {
    m & ((1 as bv8) << lane) != 0
  }

  /** The new transmitter-disable mask: only the four lanes are kept; a lane
      is disabled exactly when its enable bit is clear, or when it is outside
      laneMask and was disabled before. */
  function NextTxDisable(was: bv8, enableMask: bv64, laneMask: bv64): (next: bv8)
    ensures next & 0xF0 == 0
    ensures forall lane: nat | lane < 4 ::
      LaneSet(next, lane) <==>
        !LaneSet(Low8(enableMask), lane) || (!LaneSet(Low8(laneMask), lane) && LaneSet(was, lane))
  {
    var next := 0xF & ((was & !Low8(laneMask)) | !Low8(enableMask));
    LaneRule(was, Low8(enableMask), Low8(laneMask), next);
    next
  }

  lemma LaneRule(was: bv8, enable: bv8, lanes: bv8, next: bv8)
    requires next == 0xF & ((was & !lanes) | !enable)
    ensures forall lane: nat | lane < 4 ::
      LaneSet(next, lane) <==> !LaneSet(enable, lane) || (!LaneSet(lanes, lane) && LaneSet(was, lane))
  {
    forall lane: nat | lane < 4
      ensures LaneSet(next, lane) <==> !LaneSet(enable, lane) || (!LaneSet(lanes, lane) && LaneSet(was, lane))
    {
      var bit := (1 as bv8) << lane;
      assert bit == 1 || bit == 2 || bit == 4 || bit == 8;
    }
  }

  /** Two masks agree on the four lanes only when they are equal, for masks
      without bits above the lanes. */
  lemma LanesDetermineMask(m: bv8, n: bv8)
    requires m & 0xF0 == 0 && n & 0xF0 == 0
    requires forall lane: nat | lane < 4 :: LaneSet(m, lane) <==> LaneSet(n, lane)
    ensures m == n
  {
    assert LaneSet(m, 0) <==> LaneSet(n, 0);
    assert LaneSet(m, 1) <==> LaneSet(n, 1);
    assert LaneSet(m, 2) <==> LaneSet(n, 2);
    assert LaneSet(m, 3) <==> LaneSet(n, 3);
  }

  /** Repeating a TxEnable call changes nothing, so it writes no register. */
  lemma NextTxDisableIdempotent(was: bv8, enableMask: bv64, laneMask: bv64)
    ensures NextTxDisable(NextTxDisable(was, enableMask, laneMask), enableMask, laneMask)
         == NextTxDisable(was, enableMask, laneMask)
  {
    var once := NextTxDisable(was, enableMask, laneMask);
    LanesDetermineMask(NextTxDisable(once, enableMask, laneMask), once);
  }

  /** Enabling nothing (enableMask 0) disables every lane, and enabling every
      lane of laneMask 0xF enables all four, whatever the mask was. */
  lemma TxDisableAllAndEnableAll(was: bv8)
    ensures NextTxDisable(was, 0, 0xF) == 0xF
    ensures NextTxDisable(was, !0, 0xF) == 0
    ensures NextTxDisable(was, 0xF, 0xF) == 0
  {
  }

  /** With a lane mask of 0, enabled lanes keep the state they had. */
  lemma EmptyLaneMaskKeepsLanes(was: bv8)
    requires was & 0xF0 == 0
    ensures NextTxDisable(was, !0, 0) == was
  {
  }

  // The handshake against a loopback device.

  /** A loopback log that begins with reads leaves the memory as it was. */
  lemma {:induction false} LoopbackReadsThen(mem: map<nat, bv8>, prefix: seq<Transaction>, later: seq<Transaction>)
    requires forall k :: 0 <= k < |prefix| ==> prefix[k].Read?
    requires Loopback(mem, prefix + later)
    ensures Loopback(mem, later)
    ensures forall k :: 0 <= k < |prefix| ==> prefix[k].data == Load(mem, prefix[k].offset, |prefix[k].data|)
    decreases |prefix|
  {
    if prefix == [] {
      assert prefix + later == later;
    } else {
      assert (prefix + later)[0] == prefix[0];
      assert (prefix + later)[1..] == prefix[1..] + later;
      LoopbackReadsThen(mem, prefix[1..], later);
    }
  }

  /** Against a loopback device, the EEPROM image the handshake caches is
      the upper memory the device held: forcing page 0 writes only byte 127. */
  lemma PresentCachesUpperMemory(mem: map<nat, bv8>, statuses: seq<bv8>, page: bv8, words: seq<Uint16>)
    requires Loopback(mem, ReadyTraffic(statuses, page, words))
    ensures forall i :: 0 <= i < |words| ==> Encode16(words[i]) == Load(mem, UpperMemory(i).offset, 2)
  {
    var tail := [Write(UpperMemoryMapPageSelect.offset, [3])];
    var later := WordReads(words) + tail;
    assert ReadyTraffic(statuses, page, words) == StatusReads(statuses) + PageSelectZero(page) + later;
    var m := LoopbackPastPageSelect(mem, statuses, page, later);
    WordReadsLoad(m, words, tail);
    if page != 0 {
      forall i | 0 <= i < |words|
        ensures Load(m, UpperMemory(i).offset, 2) == Load(mem, UpperMemory(i).offset, 2)
      {
        LoadStoreDisjoint(mem, UpperMemoryMapPageSelect.offset, [0], UpperMemory(i).offset, 2);
      }
    }
  }

  /** After the status polls and the selection of page 0, a loopback device
      holds what it held, with 0 in the page select if it was written. */
  lemma LoopbackPastPageSelect(mem: map<nat, bv8>, statuses: seq<bv8>, page: bv8, later: seq<Transaction>)
    returns (m: map<nat, bv8>)
    requires Loopback(mem, StatusReads(statuses) + PageSelectZero(page) + later)
    ensures Loopback(m, later)
    ensures m == if page == 0 then mem else Store(mem, UpperMemoryMapPageSelect.offset, [0])
  {
    var select := PageSelectZero(page);
    var polls := StatusReads(statuses) + [select[0]];
    assert StatusReads(statuses) + select + later == polls + (select[1..] + later);
    LoopbackReadsThen(mem, polls, select[1..] + later);
    if page != 0 {
      assert select[1..] + later == [select[1]] + later;
      assert ([select[1]] + later)[1..] == later;
      m := Store(mem, UpperMemoryMapPageSelect.offset, [0]);
    } else {
      assert select[1..] + later == later;
      m := mem;
    }
  }

  /** Reading the words of upper memory from a loopback device yields the
      bytes it holds there. */
  lemma WordReadsLoad(m: map<nat, bv8>, words: seq<Uint16>, later: seq<Transaction>)
    requires Loopback(m, WordReads(words) + later)
    ensures forall i :: 0 <= i < |words| ==> Encode16(words[i]) == Load(m, UpperMemory(i).offset, 2)
  {
    var words16 := WordReads(words);
    LoopbackReadsThen(m, words16, later);
    forall i | 0 <= i < |words|
      ensures Encode16(words[i]) == Load(m, UpperMemory(i).offset, 2)
    {
      assert words16[i] == Read(UpperMemory(i).offset, Encode16(words[i]));
    }
  }

  /** A loopback device returns the same status byte to every poll. */
  lemma LoopbackStatusConstant(mem: map<nat, bv8>, statuses: seq<bv8>, later: seq<Transaction>)
    requires Loopback(mem, StatusReads(statuses) + later)
    ensures Loopback(mem, later)
    ensures forall k :: 0 <= k < |statuses| ==> statuses[k] == Peek(mem, Status.offset)
  {
    var polls := StatusReads(statuses);
    LoopbackReadsThen(mem, polls, later);
    forall k | 0 <= k < |statuses|
      ensures statuses[k] == Peek(mem, Status.offset)
    {
      assert polls[k] == Read(Status.offset, [statuses[k]]);
      assert [statuses[k]] == Load(mem, Status.offset, 1);
      assert Load(mem, Status.offset, 1)[0] == Peek(mem, Status.offset);
    }
  }

  /** The traffic of a handshake that found the module ready. */
  function ReadyTraffic(statuses: seq<bv8>, page: bv8, words: seq<Uint16>): seq<Transaction> {
    StatusReads(statuses) + PageSelectZero(page) + WordReads(words)
      + [Write(UpperMemoryMapPageSelect.offset, [3])]
  }

  /** A module whose Data_Not_Ready bit never clears makes the handshake
      end with the ready timeout. */
  lemma StuckModuleTimesOut(mem: map<nat, bv8>, t: seq<Transaction>, words: seq<Uint16>, outcome: Outcome, elapsed: nat -> nat)
    requires NotReady(Peek(mem, Status.offset))
    requires Loopback(mem, t) && PresentTraffic(true, t, words, outcome, elapsed)
    ensures outcome == ReadyTimeout
  {
    if outcome == Done {
      var statuses, page :| ReadyPolls(statuses, elapsed) && t == ReadyTraffic(statuses, page, words);
      StuckStatusesNeverReady(mem, statuses, page, words, elapsed);
    }
  }

  lemma StuckStatusesNeverReady(mem: map<nat, bv8>, statuses: seq<bv8>, page: bv8, words: seq<Uint16>, elapsed: nat -> nat)
    requires NotReady(Peek(mem, Status.offset))
    requires Loopback(mem, ReadyTraffic(statuses, page, words))
    ensures !ReadyPolls(statuses, elapsed)
  {
    var later := PageSelectZero(page) + WordReads(words) + [Write(UpperMemoryMapPageSelect.offset, [3])];
    assert ReadyTraffic(statuses, page, words) == StatusReads(statuses) + later;
    LoopbackStatusConstant(mem, statuses, later);
  }

  /** A module that is ready at once is polled once, and the handshake
      caches its upper memory. */
  lemma ReadyModuleCachesUpperMemory(mem: map<nat, bv8>, t: seq<Transaction>, words: seq<Uint16>, outcome: Outcome, elapsed: nat -> nat)
    requires !NotReady(Peek(mem, Status.offset))
    requires Loopback(mem, t) && PresentTraffic(true, t, words, outcome, elapsed)
    ensures outcome == Done
    ensures t[0] == Read(Status.offset, [Peek(mem, Status.offset)]) && t[1].offset == UpperMemoryMapPageSelect.offset
    ensures forall i :: 0 <= i < |words| ==> Encode16(words[i]) == Load(mem, UpperMemory(i).offset, 2)
  {
    if outcome == ReadyTimeout {
      var statuses :| TimedOutPolls(statuses, elapsed) && t == StatusReads(statuses);
      ReadyStatusesNeverTimeOut(mem, statuses, elapsed);
    } else {
      var statuses, page :| ReadyPolls(statuses, elapsed) && t == ReadyTraffic(statuses, page, words);
      ReadyStatusesPollOnce(mem, statuses, page, words, elapsed);
      PresentCachesUpperMemory(mem, statuses, page, words);
    }
  }

  lemma ReadyStatusesNeverTimeOut(mem: map<nat, bv8>, statuses: seq<bv8>, elapsed: nat -> nat)
    requires !NotReady(Peek(mem, Status.offset))
    requires Loopback(mem, StatusReads(statuses))
    ensures !TimedOutPolls(statuses, elapsed)
  {
    assert StatusReads(statuses) == StatusReads(statuses) + [];
    LoopbackStatusConstant(mem, statuses, []);
  }

  lemma ReadyStatusesPollOnce(mem: map<nat, bv8>, statuses: seq<bv8>, page: bv8, words: seq<Uint16>, elapsed: nat -> nat)
    requires !NotReady(Peek(mem, Status.offset))
    requires ReadyPolls(statuses, elapsed)
    requires Loopback(mem, ReadyTraffic(statuses, page, words))
    ensures |statuses| == 1
    ensures ReadyTraffic(statuses, page, words)[0] == Read(Status.offset, [Peek(mem, Status.offset)])
    ensures ReadyTraffic(statuses, page, words)[1].offset == UpperMemoryMapPageSelect.offset
  {
    var later := PageSelectZero(page) + WordReads(words) + [Write(UpperMemoryMapPageSelect.offset, [3])];
    assert ReadyTraffic(statuses, page, words) == StatusReads(statuses) + later;
    LoopbackStatusConstant(mem, statuses, later);
  }
}
