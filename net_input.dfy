/**
 * One iteration of the input pump of net/input.c: receive a frame from the card, retrying while the
 * receive ring is empty, copy it into the request page `nsipcbuf[s]`, send that page to the network
 * server and switch to the other page, so that the page just sent is not overwritten by the next
 * frame.
 *
 * `sys_rx_try_recvpack` is the driver's `RecvPacket` on the modelled card (kern/syscall.c is not
 * part of this model). Each `sys_yield` is the point at which the card may store a frame, given as
 * a `CardActivity`. `ipc_send` is recorded in a trace.
 */
module NetInput {
  import opened Bits
  import Mmu
  import Ns
  import E1000

  /** What the card does during one `sys_yield` of the pump. */
  datatype CardActivity = Idle | Stores(slot: nat, frame: seq<byte>)

  /** The card stores a frame in receive slot `slot` during this `sys_yield`. */
  predicate StoresAt(a: CardActivity, slot: nat) {
    a.Stores? && a.slot == slot
  }

  /** One `ipc_send(to, value, &nsipcbuf[page], perm)`. */
  datatype IpcSend = IpcSend(to: int, value: int, page: int, perm: bv32)

  /** `s ^= 1` on a non-negative `int`: the low bit flips and the other bits stay. */
  function FlipLowBit(s: nat): (r: nat)
    ensures r % 2 != s % 2 && r / 2 == s / 2
  {
    if s % 2 == 0 then s + 1 else s - 1
  }

  /** The send the pump makes after filling request page `page`. */
  function Forward(nsEnvid: int, page: int): IpcSend {
    IpcSend(nsEnvid, Ns.NSREQ_INPUT, page, Mmu.PTE_P | Mmu.PTE_U)
  }

  class InputPump {
    const nsEnvid: int
    const jpLen: array<int>       // nsipcbuf[0..1].pkt.jp_len
    const jpData: array2<byte>    // nsipcbuf[0..1].pkt.jp_data
    const buf: array<byte>        // the pump's local frame buffer
    var s: int                    // the request page to fill next
    var sent: seq<IpcSend>        // every ipc_send so far, oldest first

    /**
     * Two request pages; the `i`-th send went to the network server with tag `NSREQ_INPUT` and
     * permissions `PTE_P | PTE_U`, from page `i % 2`, and `s` is the page of the next send.
     */
    ghost predicate Valid()
      reads this`s, this`sent
    {
      jpLen.Length == 2 && jpData.Length0 == 2 && jpData.Length1 == Ns.JpDataCapacity &&
      s == |sent| % 2 &&
      forall i :: 0 <= i < |sent| ==> sent[i] == Forward(nsEnvid, i % 2)
    }

    /** The pump as `input` starts it: page 0 first, nothing sent. */
    constructor (nsEnvid: int, bufSize: nat)
      ensures Valid() && s == 0 && sent == [] && this.nsEnvid == nsEnvid && buf.Length == bufSize
      ensures fresh(jpLen) && fresh(jpData) && fresh(buf)
    {
      this.nsEnvid := nsEnvid;
      jpLen := new int[2];
      jpData := new byte[2, Ns.JpDataCapacity];
      buf := new byte[bufSize];
      s := 0;
      sent := [];
    }

    /** The page index is always 0 or 1. */
    lemma PageInRange()
      requires Valid()
      ensures s == 0 || s == 1
    {
    }

    /** Two consecutive sends hand over different request pages. */
    lemma ConsecutiveSendsAlternate(i: int)
      requires Valid()
      requires 0 <= i && i + 1 < |sent|
      ensures sent[i].page != sent[i + 1].page
      ensures sent[i].to == nsEnvid && sent[i].value == Ns.NSREQ_INPUT && sent[i].perm == Mmu.PTE_P | Mmu.PTE_U
    {
      assert sent[i] == Forward(nsEnvid, i % 2);
      assert sent[i + 1] == Forward(nsEnvid, (i + 1) % 2);
    }

    /** `buf` holds the `r` bytes the driver just delivered from the receive cursor's slot. */
    ghost predicate Received(nic: E1000.Nic, r: int)
      reads this, buf, nic, nic.rxRing, nic.rxBufs
    {
      nic.Valid() && 0 <= r <= nic.cfg.bufSize && r <= buf.Length &&
      r == nic.rxRing[nic.rdrTail].length &&
      forall j :: 0 <= j < r ==> buf[j] == nic.rxBufs[nic.rdrTail, j]
    }

    /**
     * The retry loop of `input`: `r = sys_rx_try_recvpack(buf)` until it is not negative, with the
     * card's activity `card[k]` at the `k`-th `sys_yield`. If the card activity runs out while the
     * ring stays empty, the loop stops where the pump would yield again, with `r` negative. The
     * pump's own state is not touched.
     */
    method ReceiveRetrying(nic: E1000.Nic, card: seq<CardActivity>) returns (r: int)
      requires nic.Valid() && nic.cfg.bufSize <= buf.Length
      requires forall a :: a in card && a.Stores? ==> a.slot < nic.cfg.nrdr && |a.frame| <= nic.cfg.bufSize
      modifies buf, nic`rdrTail, nic`regs, nic.rxRing, nic.rxBufs
      ensures nic.Valid()
      ensures old(nic.RxReady()) ==> nic.RxReady()
      ensures r >= 0 ==> Received(nic, r) && nic.rdrTail == (old(nic.rdrTail) + 1) % nic.cfg.nrdr
      ensures r < 0 ==> nic.rdrTail == old(nic.rdrTail) && nic.regs == old(nic.regs)
      ensures old(E1000.RxDone(nic.cfg, nic.rxRing[(nic.rdrTail + 1) % nic.cfg.nrdr])) ==> r >= 0
      ensures r < 0 ==> !E1000.RxDone(nic.cfg, nic.rxRing[(nic.rdrTail + 1) % nic.cfg.nrdr])
      ensures r < 0 ==> forall k :: 0 <= k < |card| ==> !StoresAt(card[k], (old(nic.rdrTail) + 1) % nic.cfg.nrdr)
    {
      r := nic.RecvPacket(buf);
      var k := 0;
      while r < 0 && k < |card|
        invariant 0 <= k <= |card|
        invariant nic.Valid()
        invariant old(nic.RxReady()) ==> nic.RxReady()
        invariant r >= 0 ==> Received(nic, r) && nic.rdrTail == (old(nic.rdrTail) + 1) % nic.cfg.nrdr
        invariant r < 0 ==> nic.rdrTail == old(nic.rdrTail) && nic.regs == old(nic.regs)
        invariant old(E1000.RxDone(nic.cfg, nic.rxRing[(nic.rdrTail + 1) % nic.cfg.nrdr])) ==> r >= 0
        invariant r < 0 ==> !E1000.RxDone(nic.cfg, nic.rxRing[(nic.rdrTail + 1) % nic.cfg.nrdr])
        invariant r < 0 ==> forall k' :: 0 <= k' < k ==> !StoresAt(card[k'], (old(nic.rdrTail) + 1) % nic.cfg.nrdr)
        decreases |card| - k
      {
        if card[k].Stores? {
          nic.DeviceFillRx(card[k].slot, card[k].frame);
        }
        r := nic.RecvPacket(buf);
        k := k + 1;
      }
    }

    /**
     * The rest of the pass once `r` bytes are in `buf`: `nsipcbuf[s].pkt.jp_len = r`, copy the
     * bytes into page `s`, send page `s` to the network server, `s ^= 1`.
     */
    method Pass(r: int)
      requires Valid() && 0 <= r <= buf.Length && r <= Ns.JpDataCapacity
      modifies this`s, this`sent, jpLen, jpData
      ensures Valid()
      ensures sent == old(sent) + [Forward(nsEnvid, old(s))] && s == 1 - old(s)
      ensures jpLen[..] == old(jpLen[..])[old(s) := r]
      ensures forall j :: 0 <= j < r ==> jpData[old(s), j] == buf[j]
      ensures forall p, j :: 0 <= p < 2 && 0 <= j < jpData.Length1 && (p != old(s) || r <= j) ==>
                jpData[p, j] == old(jpData[p, j])
    {
      jpLen[s] := r;
      E1000.CopyToRow(jpData, s, buf[..], r);
      sent := sent + [Forward(nsEnvid, s)];
      s := FlipLowBit(s);
    }

    /**
     * One pass of the loop of `input`: receive with retries, and once a frame of `r >= 0` bytes
     * is in, put it in request page `s`, send that page and switch pages. While the receive
     * fails, no request page is written and nothing is sent.
     */
    method Step(nic: E1000.Nic, card: seq<CardActivity>) returns (r: int)
      requires Valid() && nic.Valid()
      requires nic.cfg.bufSize <= buf.Length && nic.cfg.bufSize <= Ns.JpDataCapacity
      requires jpData != nic.rxBufs
      requires forall a :: a in card && a.Stores? ==> a.slot < nic.cfg.nrdr && |a.frame| <= nic.cfg.bufSize
      modifies this`s, this`sent, jpLen, jpData, buf
      modifies nic`rdrTail, nic`regs, nic.rxRing, nic.rxBufs
      ensures Valid() && nic.Valid()
      ensures old(nic.RxReady()) ==> nic.RxReady()
      ensures r < 0 ==>
                s == old(s) && sent == old(sent) && unchanged(jpLen) && unchanged(jpData) &&
                nic.rdrTail == old(nic.rdrTail) && nic.regs == old(nic.regs) &&
                !old(E1000.RxDone(nic.cfg, nic.rxRing[(nic.rdrTail + 1) % nic.cfg.nrdr])) &&
                forall k :: 0 <= k < |card| ==> !StoresAt(card[k], (old(nic.rdrTail) + 1) % nic.cfg.nrdr)
      ensures r >= 0 ==>
                Received(nic, r) && nic.rdrTail == (old(nic.rdrTail) + 1) % nic.cfg.nrdr &&
                sent == old(sent) + [Forward(nsEnvid, old(s))] && s == 1 - old(s) &&
                jpLen[..] == old(jpLen[..])[old(s) := r] &&
                (forall j :: 0 <= j < r ==> jpData[old(s), j] == buf[j]) &&
                (forall p, j :: 0 <= p < 2 && 0 <= j < jpData.Length1 && (p != old(s) || r <= j) ==>
                   jpData[p, j] == old(jpData[p, j]))
    {
      r := ReceiveRetrying(nic, card);
      if r >= 0 {
        Pass(r);
      }
    }
  }
}
