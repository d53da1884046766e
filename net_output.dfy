/**
 * One iteration of the output pump of net/output.c: receive a request page from the network
 * server, insist that it came from the network server with tag `NSREQ_OUTPUT`, then hand its frame
 * to the driver, retrying while the transmit ring is full.
 *
 * `ipc_recv` is given as its outcome (`Request`): the value, the sender and the page it maps at
 * `nsipcbuf`. `sys_tx_sendpack` is the driver's transmit operation on the modelled card, with the
 * corrected ring-full test (`SendPacketChecked`; kern/syscall.c is not part of this model). Each
 * `sys_yield` is the point at which the card may finish sending a descriptor, given as a
 * `CardActivity`.
 */
module NetOutput {
  import opened Outcomes
  import opened Bits
  import Mmu
  import Ns
  import E1000

  /** What `ipc_recv` returned, who sent it, and the `struct jif_pkt` of the page it mapped. */
  datatype Request = Request(value: int, from: int, jpLen: int, jpData: seq<byte>)

  /** What the card does during one `sys_yield` of the pump. */
  datatype CardActivity = Idle | Completes(slot: nat)

  /** The card finishes sending transmit slot `slot` during this `sys_yield`. */
  predicate CompletesAt(a: CardActivity, slot: nat) {
    a.Completes? && a.slot == slot
  }

  /** The `int` `jp_len` passed as a `size_t` argument on a 32-bit machine: negative lengths wrap around. */
  function SizeT(n: int): (r: nat)
    requires -0x8000_0000 <= n < 0x8000_0000
    ensures r < Mmu.WORD
    ensures n >= 0 ==> r == n
    ensures n < 0 ==> r >= Mmu.WORD / 2
  {
    if n < 0 then n + Mmu.WORD else n
  }

  /** Request pages the pump accepts: from the network server, tagged `NSREQ_OUTPUT`. */
  predicate Accepted(nsEnvid: int, m: Request) {
    m.value >= 0 && m.from == nsEnvid && m.value == Ns.NSREQ_OUTPUT
  }

  class OutputPump {
    const nsEnvid: int
    var jpLen: int             // nsipcbuf.pkt.jp_len
    var jpData: seq<byte>      // nsipcbuf.pkt.jp_data

    constructor (nsEnvid: int)
      ensures this.nsEnvid == nsEnvid && jpLen == 0 && jpData == []
    {
      this.nsEnvid := nsEnvid;
      jpLen := 0;
      jpData := [];
    }

    /**
     * The transmit ring after the frame of `jp_data`/`jp_len` went in at slot `t`: the frame is
     * in slot `t`'s buffer and no other buffer byte changed, slot `t` has the command and length
     * the driver writes and keeps its buffer, every other slot keeps its command, length and
     * buffer (the card may only have marked slots done), the cursor moved one slot on and TDT
     * shows it.
     */
    twostate predicate Transmitted(nic: E1000.Nic, t: int, n: nat)
      reads this, nic, nic.txRing, nic.rxRing, nic.txBufs
    {
      nic.Valid() && 0 <= t < nic.txRing.Length && nic.txBufs.Length0 == nic.txRing.Length &&
      n <= nic.cfg.bufSize && n <= |jpData| && nic.cfg.bufSize == nic.txBufs.Length1 &&
      (forall j :: 0 <= j < n ==> nic.txBufs[t, j] == jpData[j]) &&
      (forall i, j :: 0 <= i < nic.txBufs.Length0 && 0 <= j < nic.txBufs.Length1 && (i != t || n <= j) ==>
         nic.txBufs[i, j] == old(nic.txBufs[i, j])) &&
      nic.txRing[t].lower == E1000.WithLength(nic.cfg.txdCmdRs | nic.cfg.txdCmdEop, Half(n)) &&
      nic.txRing[t].bufferAddr == old(nic.txRing[t].bufferAddr) &&
      (forall i :: 0 <= i < nic.txRing.Length && i != t ==>
         nic.txRing[i].lower == old(nic.txRing[i].lower) &&
         nic.txRing[i].bufferAddr == old(nic.txRing[i].bufferAddr)) &&
      nic.tdrTail == (t + 1) % nic.txRing.Length &&
      nic.regs == old(nic.regs)[E1000.TDT := Word(nic.tdrTail)]
    }

    /**
     * Nothing of the frame reached the card: the buffers, the cursor and the registers are as
     * they were, and each descriptor keeps its command, length and buffer (the card may only
     * have marked descriptors done).
     */
    twostate predicate NothingQueued(nic: E1000.Nic)
      reads nic, nic.txRing, nic.rxRing, nic.txBufs
    {
      nic.Valid() &&
      (forall i, j :: 0 <= i < nic.txBufs.Length0 && 0 <= j < nic.txBufs.Length1 ==>
         nic.txBufs[i, j] == old(nic.txBufs[i, j])) &&
      (forall i :: 0 <= i < nic.txRing.Length ==>
         nic.txRing[i].lower == old(nic.txRing[i].lower) &&
         nic.txRing[i].bufferAddr == old(nic.txRing[i].bufferAddr)) &&
      nic.tdrTail == old(nic.tdrTail) && nic.regs == old(nic.regs)
    }

    /**
     * One `sys_tx_sendpack(jp_data, jp_len)`: the driver panics on an oversized frame, and
     * otherwise either queues the frame or reports the ring full and queues nothing.
     */
    method Send(nic: E1000.Nic, nbytes: nat) returns (o: Outcome<int>)
      requires nic.Valid() && nic.cfg.bufSize <= |jpData|
      modifies nic`tdrTail, nic`regs, nic.txRing, nic.txBufs
      ensures nic.Valid()
      ensures old(nic.TxReady()) ==> nic.TxReady()
      ensures nbytes > nic.cfg.bufSize ==> o == Panic && unchanged(nic) && unchanged(nic.txRing)
      ensures nbytes <= nic.cfg.bufSize ==> o == Ret(0) || o == Ret(-(nic.cfg.eTxdrFull as int))
      ensures nbytes <= nic.cfg.bufSize && !old(E1000.TxBusy(nic.cfg, nic.txRing[nic.tdrTail])) ==> o == Ret(0)
      ensures nbytes <= nic.cfg.bufSize && old(E1000.TxBusy(nic.cfg, nic.txRing[nic.tdrTail])) ==>
                o == Ret(-(nic.cfg.eTxdrFull as int))
      ensures o == Ret(0) ==> Transmitted(nic, old(nic.tdrTail), nbytes)
      ensures o == Ret(-(nic.cfg.eTxdrFull as int)) ==> NothingQueued(nic)
    {
      o := nic.SendPacketChecked(jpData, nbytes);
    }

    /**
     * One more turn of the retry loop: `sys_yield`, during which the card may mark a transmit
     * descriptor done, then `sys_tx_sendpack(jp_data, jp_len)` again.
     */
    method Retry(nic: E1000.Nic, a: CardActivity, nbytes: nat) returns (o: Outcome<int>)
      requires nic.Valid() && nbytes <= nic.cfg.bufSize && nic.cfg.bufSize <= |jpData|
      requires a.Completes? ==> a.slot < nic.cfg.ntdr
      modifies nic`tdrTail, nic`regs, nic.txRing, nic.txBufs
      ensures nic.Valid()
      ensures old(nic.TxReady()) ==> nic.TxReady()
      ensures o == Ret(0) || o == Ret(-(nic.cfg.eTxdrFull as int))
      ensures CompletesAt(a, old(nic.tdrTail)) ==> o == Ret(0)
      ensures o == Ret(0) ==> Transmitted(nic, old(nic.tdrTail), nbytes)
      ensures o == Ret(-(nic.cfg.eTxdrFull as int)) ==> NothingQueued(nic)
    {
      if a.Completes? {
        nic.DeviceCompleteTx(a.slot);
        E1000.CompletedIsFree(nic.cfg, old(nic.txRing[a.slot]));
      }
      o := Send(nic, nbytes);
    }

    /**
     * The retry loop of `output`: `sys_tx_sendpack(jp_data, jp_len)` until it is not negative,
     * with the card's activity `card[k]` at the `k`-th `sys_yield`. The same bytes and length are
     * passed on every attempt. If the card activity runs out while the ring stays full, the loop
     * stops where the pump would yield again, with a negative result.
     */
    method SendRetrying(nic: E1000.Nic, card: seq<CardActivity>) returns (o: Outcome<int>)
      requires nic.Valid() && -0x8000_0000 <= jpLen < 0x8000_0000
      requires nic.cfg.bufSize <= |jpData|
      requires forall a :: a in card && a.Completes? ==> a.slot < nic.cfg.ntdr
      modifies nic`tdrTail, nic`regs, nic.txRing, nic.txBufs
      ensures nic.Valid()
      ensures old(nic.TxReady()) ==> nic.TxReady()
      ensures SizeT(jpLen) > nic.cfg.bufSize ==> o == Panic && unchanged(nic) && unchanged(nic.txRing)
      ensures SizeT(jpLen) <= nic.cfg.bufSize ==> o == Ret(0) || o == Ret(-(nic.cfg.eTxdrFull as int))
      ensures SizeT(jpLen) <= nic.cfg.bufSize && !old(E1000.TxBusy(nic.cfg, nic.txRing[nic.tdrTail])) ==> o == Ret(0)
      ensures o == Ret(0) ==> Transmitted(nic, old(nic.tdrTail), SizeT(jpLen))
      ensures o != Ret(0) && o != Panic ==> o == Ret(-(nic.cfg.eTxdrFull as int)) && NothingQueued(nic)
      ensures o == Ret(-(nic.cfg.eTxdrFull as int)) ==>
                forall k :: 0 <= k < |card| ==> !CompletesAt(card[k], old(nic.tdrTail))
    {
      var nbytes := SizeT(jpLen);
      o := Send(nic, nbytes);
      var k := 0;
      while o.Ret? && o.value < 0 && k < |card|
        invariant 0 <= k <= |card|
        invariant nic.Valid()
        invariant old(nic.TxReady()) ==> nic.TxReady()
        invariant nbytes > nic.cfg.bufSize ==> o == Panic && unchanged(nic) && unchanged(nic.txRing)
        invariant nbytes <= nic.cfg.bufSize ==> o == Ret(0) || o == Ret(-(nic.cfg.eTxdrFull as int))
        invariant o == Ret(0) ==> Transmitted(nic, old(nic.tdrTail), nbytes)
        invariant o == Ret(-(nic.cfg.eTxdrFull as int)) ==> NothingQueued(nic)
        invariant nbytes <= nic.cfg.bufSize && !old(E1000.TxBusy(nic.cfg, nic.txRing[nic.tdrTail])) ==> o == Ret(0)
        invariant o == Ret(-(nic.cfg.eTxdrFull as int)) ==>
                    forall k' :: 0 <= k' < k ==> !CompletesAt(card[k'], old(nic.tdrTail))
        decreases |card| - k
      {
        o := Retry(nic, card[k], nbytes);
        k := k + 1;
      }
    }

    /**
     * One pass of the loop of `output`: panic when `ipc_recv` failed, when the page did not come
     * from the network server, or when its tag is not `NSREQ_OUTPUT`, checked in that order;
     * otherwise send the frame of the page with retries.
     */
    method Step(nic: E1000.Nic, m: Request, card: seq<CardActivity>) returns (o: Outcome<int>)
      requires nic.Valid() && -0x8000_0000 <= m.jpLen < 0x8000_0000
      requires |m.jpData| == Ns.JpDataCapacity && nic.cfg.bufSize <= Ns.JpDataCapacity
      requires forall a :: a in card && a.Completes? ==> a.slot < nic.cfg.ntdr
      modifies this, nic`tdrTail, nic`regs, nic.txRing, nic.txBufs
      ensures nic.Valid()
      ensures old(nic.TxReady()) ==> nic.TxReady()
      ensures !Accepted(nsEnvid, m) ==> o == Panic && unchanged(nic) && unchanged(nic.txRing) && unchanged(nic.txBufs)
      ensures Accepted(nsEnvid, m) ==> jpLen == m.jpLen && jpData == m.jpData
      ensures Accepted(nsEnvid, m) && SizeT(m.jpLen) > nic.cfg.bufSize ==> o == Panic
      ensures Accepted(nsEnvid, m) && o == Ret(0) ==> Transmitted(nic, old(nic.tdrTail), SizeT(m.jpLen))
      ensures Accepted(nsEnvid, m) && SizeT(m.jpLen) <= nic.cfg.bufSize ==> o != Panic
      ensures Accepted(nsEnvid, m) && SizeT(m.jpLen) <= nic.cfg.bufSize ==>
                old(E1000.TxBusy(nic.cfg, nic.txRing[nic.tdrTail])) || o == Ret(0)
      ensures Accepted(nsEnvid, m) && o != Ret(0) && o != Panic ==>
                NothingQueued(nic) && forall k :: 0 <= k < |card| ==> !CompletesAt(card[k], old(nic.tdrTail))
    {
      if m.value < 0 {
        return Panic;
      }
      jpLen, jpData := m.jpLen, m.jpData;
      if m.from != nsEnvid {
        return Panic;
      }
      if m.value != Ns.NSREQ_OUTPUT {
        return Panic;
      }
      o := SendRetrying(nic, card);
    }
  }
}
