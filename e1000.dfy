/**
 * The E1000 network card driver of kern/e1000.c: a transmit ring and a receive ring of hardware
 * descriptors, each descriptor bound to its own packet buffer, one software cursor per ring
 * (`tdr_tail`, `rdr_tail`) and the card's register file (`e1000[]`).
 *
 * The card is not a concurrent actor here: what it does to the rings is written as explicit
 * methods (`DeviceCompleteTx`, `DeviceFillRx`) that a caller interleaves with the driver's calls.
 * The header kern/e1000.h is not part of this model, so every size, bit constant and error number
 * it defines is a field of `Config`, and so is `PADDR`, as an arbitrary function that is
 * injective on the objects the driver programs into the card.
 */
module E1000 {
  import opened Outcomes
  import opened Bits

  /** Size in bytes of one transmit or one receive descriptor (`sizeof` of either struct). */
  const DescSize: nat := 16

  /** The statically allocated objects whose physical address the driver hands to the card. */
  datatype PhysObj = TxRingMem | RxRingMem | TxBuf(i: nat) | RxBuf(i: nat)

  /** The constants of kern/e1000.h (and `PADDR`), left abstract. */
  datatype Config = Config(
    ntdr: nat,            // NTDRENTRIES
    nrdr: nat,            // NRDRENTRIES
    bufSize: nat,         // PACKETBUFSIZE
    nmta: nat,            // NMTAENTRIES
    txdCmdRs: bv32,       // E1000_TXD_CMD_RS
    txdCmdEop: bv32,      // E1000_TXD_CMD_EOP
    txdStatDd: bv32,      // E1000_TXD_STAT_DD
    rxdStatDd: bv8,       // E1000_RXD_STAT_DD (a bit of the 8-bit status field)
    tctlEn: bv32,         // E1000_TCTL_EN
    tctlPsp: bv32,        // E1000_TCTL_PSP
    rctlEn: bv32,         // E1000_RCTL_EN
    rctlSecrc: bv32,      // E1000_RCTL_SECRC
    rctlBam: bv32,        // E1000_RCTL_BAM
    rctlLpe: bv32,        // E1000_RCTL_LPE
    rahAv: bv32,          // E1000_RAH_AV
    macAddrL: bv32,       // MACADDRL
    macAddrH: bv32,       // MACADDRH
    eTxdrFull: nat,       // E_TXDR_FULL
    eRxdrEmpty: nat,      // E_RXDR_EMPTY
    paddr: PhysObj -> bv32) // PADDR
  {
    predicate Exists(o: PhysObj) {
      match o
      case TxBuf(i) => i < ntdr
      case RxBuf(i) => i < nrdr
      case _ => true
    }

    /**
     * Both rings are non-empty and small enough for their byte size to fit a 32-bit register,
     * a packet buffer fits the 16-bit descriptor length field, the two DD bits are bits of the
     * 8-bit status field, the error numbers are positive, and distinct objects have distinct
     * physical addresses.
     */
    ghost predicate Valid() {
      0 < ntdr < 0x1000_0000 && 0 < nrdr < 0x1000_0000 &&
      0 < bufSize <= 0xFFFF &&
      0 < txdStatDd < 0x100 && rxdStatDd != 0 &&
      0 < eTxdrFull && 0 < eRxdrEmpty &&
      forall a, b :: Exists(a) && Exists(b) && paddr(a) == paddr(b) ==> a == b
    }
  }

  /** The card registers the driver writes, by name (`E1000_RA` is `RAL`, the word after it `RAH`). */
  datatype Reg =
    | TDBAL | TDBAH | TDLEN | TDH | TDT | TCTL | TIPG
    | RAL | RAH | MTA(i: nat)
    | RDBAL | RDBAH | RDLEN | RDH | RDT | RCTL

  /**
   * A TIPG register value: the back-to-back gap IPGT in bits 0-9, IPGR1 in bits 10-19 and IPGR2
   * in bits 20-29.
   */
  function Tipg(ipgt: bv32, ipgr1: bv32, ipgr2: bv32): bv32 {
    ipgt | (ipgr1 << 10) | (ipgr2 << 20)
  }

  /** Gaps that fit their 10-bit fields are read back unchanged, and bits 30-31 stay clear. */
  lemma TipgFields(ipgt: bv32, ipgr1: bv32, ipgr2: bv32)
    requires ipgt < 0x400 && ipgr1 < 0x400 && ipgr2 < 0x400
    ensures Tipg(ipgt, ipgr1, ipgr2) & 0x3FF == ipgt
    ensures (Tipg(ipgt, ipgr1, ipgr2) >> 10) & 0x3FF == ipgr1
    ensures (Tipg(ipgt, ipgr1, ipgr2) >> 20) & 0x3FF == ipgr2
    ensures Tipg(ipgt, ipgr1, ipgr2) >> 30 == 0
  {
  }

  /** The register file after zeroing multicast-table words `0 .. n-1`. */
  function ClearMta(regs: map<Reg, bv32>, n: nat): (r: map<Reg, bv32>)
    ensures forall i :: 0 <= i < n ==> MTA(i) in r && r[MTA(i)] == 0
    ensures forall q :: q in regs && !(q.MTA? && q.i < n) ==> q in r && r[q] == regs[q]
    ensures forall q :: q in r ==> q in regs || (q.MTA? && q.i < n)
  {
    if n == 0 then regs else ClearMta(regs, n - 1)[MTA(n - 1) := 0]
  }

  // ---------------------------------------------------------------------------------------------
  // Transmit descriptors

  /**
   * `struct e1000_tx_desc`: the buffer address and the two 32-bit unions. In `lower`, bits 0-15
   * are `flags.length`, 16-23 `flags.cso` and 24-31 `flags.cmd`; in `upper`, bits 0-7 are
   * `fields.status` (x86 is little-endian).
   */
  datatype TxDesc = TxDesc(bufferAddr: bv64, lower: bv32, upper: bv32)

  const ZeroTx := TxDesc(0, 0, 0)

  /** `lower.flags.cmd`, promoted to `int` as C does before an `&`. */
  function Cmd(d: TxDesc): bv32 {
    d.lower >> 24
  }

  /** `lower.flags.length`. */
  function Length(d: TxDesc): bv32 {
    d.lower & 0xFFFF
  }

  /** `upper.fields.status`. */
  function Status(d: TxDesc): bv32 {
    d.upper & 0xFF
  }

  /** The `lower` word `w` after `lower.flags.length = len`. */
  function WithLength(w: bv32, len: bv16): bv32 {
    (w & 0xFFFF_0000) | len as bv32
  }

  /**
   * The ring-full test of `tx_send_packet` exactly as written: the RS test and the DD test both
   * read the command byte.
   */
  predicate TxFull(cfg: Config, d: TxDesc) {
    Has(Cmd(d), cfg.txdCmdRs) && !Has(Cmd(d), cfg.txdStatDd)
  }

  /**
   * The descriptor write of `tx_send_packet`, `lower.data = RS | EOP` and then
   * `lower.flags.length = nbytes`: the length field holds the frame length, the command byte
   * holds whatever of `RS | EOP` lies in bits 24-31, and the buffer binding and status are kept.
   */
  function WriteTxDesc(cfg: Config, d: TxDesc, len: bv16): (r: TxDesc)
    ensures Length(r) == len as bv32
    ensures Cmd(r) == (cfg.txdCmdRs | cfg.txdCmdEop) >> 24
    ensures r.bufferAddr == d.bufferAddr && r.upper == d.upper
  {
    var w := d.(lower := cfg.txdCmdRs | cfg.txdCmdEop);
    w.(lower := WithLength(w.lower, len))
  }

  /** What the card does when it has sent the frame of a descriptor: it sets DD in the status byte. */
  function MarkTxDone(cfg: Config, d: TxDesc): (r: TxDesc)
    ensures Status(r) & cfg.txdStatDd == cfg.txdStatDd & 0xFF
    ensures r.bufferAddr == d.bufferAddr && r.lower == d.lower
  {
    d.(upper := d.upper | (cfg.txdStatDd & 0xFF))
  }

  /** As written, the card marking a descriptor done never changes the ring-full verdict on it. */
  lemma TxGuardIgnoresCompletion(cfg: Config, d: TxDesc)
    ensures TxFull(cfg, d) ==> TxFull(cfg, MarkTxDone(cfg, d))
    ensures TxFull(cfg, MarkTxDone(cfg, d)) ==> TxFull(cfg, d)
  {
  }

  /**
   * The two usual ways a header defines the command bits: as bits of the 32-bit `lower` word
   * (RS has no bit in the low byte), or as bits of the command byte itself (then `RS | EOP`
   * written to `lower.data` lands in the length field).
   */
  predicate CommandBitsConventional(cfg: Config) {
    cfg.txdCmdRs & 0xFF == 0 || (cfg.txdCmdRs | cfg.txdCmdEop) < 0x0100_0000
  }

  /** As written, under either convention a descriptor that `tx_send_packet` wrote is never seen as full. */
  lemma SentSlotNeverFull(cfg: Config, d: TxDesc, len: bv16)
    requires CommandBitsConventional(cfg)
    ensures !TxFull(cfg, WriteTxDesc(cfg, d, len))
  {
    var c := Cmd(WriteTxDesc(cfg, d, len));
    if cfg.txdCmdRs & 0xFF == 0 {
      assert c & cfg.txdCmdRs == 0;
    } else {
      assert c == 0;
    }
  }

  /**
   * The evidently intended ring-full test: the descriptor was submitted (RS in the `lower`
   * word, where `tx_send_packet` writes it) and the card has not yet set DD in its status byte.
   */
  predicate TxBusy(cfg: Config, d: TxDesc) {
    Has(d.lower, cfg.txdCmdRs) && !Has(Status(d), cfg.txdStatDd)
  }

  /**
   * The intended descriptor write: as `tx_send_packet` writes it, with DD cleared in the status
   * byte and every other bit of the `upper` word kept.
   */
  function WriteTxDescChecked(cfg: Config, d: TxDesc, len: bv16): (r: TxDesc)
    ensures !Has(Status(r), cfg.txdStatDd)
    ensures r == WriteTxDesc(cfg, d, len).(upper := r.upper)
  {
    var w := WriteTxDesc(cfg, d, len);
    w.(upper := w.upper & !(cfg.txdStatDd & 0xFF))
  }

  /** The intended write clears DD and keeps every other bit of the `upper` word. */
  lemma CheckedWriteKeepsOtherStatus(cfg: Config, d: TxDesc, len: bv16)
    ensures WriteTxDescChecked(cfg, d, len).upper & !(cfg.txdStatDd & 0xFF) == d.upper & !(cfg.txdStatDd & 0xFF)
  {
    var w := WriteTxDesc(cfg, d, len);
    assert w.upper == d.upper;
  }

  /** With RS a bit of the command byte, the intended test sees a freshly submitted descriptor as busy. */
  lemma SubmittedIsBusy(cfg: Config, d: TxDesc, len: bv16)
    requires Has(cfg.txdCmdRs, cfg.txdCmdRs & 0xFF00_0000)
    ensures TxBusy(cfg, WriteTxDescChecked(cfg, d, len))
  {
    var w := WriteTxDescChecked(cfg, d, len);
    assert w.lower == WithLength(cfg.txdCmdRs | cfg.txdCmdEop, len);
  }

  /** The intended test sees a descriptor free once the card has marked it done, and before first use. */
  lemma CompletedIsFree(cfg: Config, d: TxDesc)
    requires 0 < cfg.txdStatDd < 0x100
    ensures !TxBusy(cfg, MarkTxDone(cfg, d))
    ensures !TxBusy(cfg, ZeroTx)
  {
  }

  // ---------------------------------------------------------------------------------------------
  // Receive descriptors

  /** `struct e1000_rx_desc`. */
  datatype RxDesc = RxDesc(bufferAddr: bv64, length: uint16, csum: bv16,
                           status: bv8, errors: bv8, special: bv16)

  const ZeroRx := RxDesc(0, 0, 0, 0, 0, 0)

  /** The test of `rx_recv_packet`, `status & E1000_RXD_STAT_DD`: the card has set DD in the status byte. */
  predicate RxDone(cfg: Config, d: RxDesc) {
    d.status & cfg.rxdStatDd != 0
  }

  /** `status &= ~E1000_RXD_STAT_DD`: DD is cleared and every other status bit is kept. */
  function ClearRxDone(cfg: Config, d: RxDesc): (r: RxDesc)
    ensures !RxDone(cfg, r)
    ensures r.status & !cfg.rxdStatDd == d.status & !cfg.rxdStatDd
    ensures r == d.(status := r.status)
  {
    d.(status := d.status & !cfg.rxdStatDd)
  }

  /** What the card does when it has stored a frame of `len` bytes: it sets the length and DD. */
  function FillRx(cfg: Config, d: RxDesc, len: uint16): (r: RxDesc)
    requires cfg.rxdStatDd != 0
    ensures RxDone(cfg, r) && r.length == len
    ensures r == d.(length := r.length, status := r.status)
  {
    d.(length := len, status := d.status | cfg.rxdStatDd)
  }

  /** A descriptor the card fills and the driver then hands back is done no more and keeps its binding. */
  lemma FillThenClear(cfg: Config, d: RxDesc, len: uint16)
    requires cfg.rxdStatDd != 0
    ensures RxDone(cfg, FillRx(cfg, d, len))
    ensures !RxDone(cfg, ClearRxDone(cfg, FillRx(cfg, d, len)))
    ensures ClearRxDone(cfg, FillRx(cfg, d, len)).bufferAddr == d.bufferAddr
    ensures ClearRxDone(cfg, FillRx(cfg, d, len)).length == len
  {
  }

  // ---------------------------------------------------------------------------------------------
  // memcpy between a packet buffer and a caller's buffer

  /** `memcpy(dst[row], src, n)`. */
  method CopyToRow(dst: array2<byte>, row: nat, src: seq<byte>, n: nat)
    requires row < dst.Length0 && n <= dst.Length1 && n <= |src|
    modifies dst
    ensures forall j :: 0 <= j < n ==> dst[row, j] == src[j]
    ensures forall i, j :: 0 <= i < dst.Length0 && 0 <= j < dst.Length1 && (i != row || n <= j) ==>
              dst[i, j] == old(dst[i, j])
  {
    for k := 0 to n
      invariant forall j :: 0 <= j < k ==> dst[row, j] == src[j]
      invariant forall i, j :: 0 <= i < dst.Length0 && 0 <= j < dst.Length1 && (i != row || k <= j) ==>
                  dst[i, j] == old(dst[i, j])
    {
      dst[row, k] := src[k];
    }
  }

  /** `memcpy(dst, src[row], n)`. */
  method CopyFromRow(dst: array<byte>, src: array2<byte>, row: nat, n: nat)
    requires row < src.Length0 && n <= src.Length1 && n <= dst.Length
    modifies dst
    ensures forall j :: 0 <= j < n ==> dst[j] == src[row, j]
    ensures dst[n..] == old(dst[n..])
  {
    for k := 0 to n
      invariant forall j :: 0 <= j < k ==> dst[j] == src[row, j]
      invariant dst[k..] == old(dst[k..])
    {
      dst[k] := src[row, k];
    }
  }

  // ---------------------------------------------------------------------------------------------
  // The driver state

  class Nic {
    const cfg: Config
    const txRing: array<TxDesc>   // tx_desc_ring
    const rxRing: array<RxDesc>   // rx_desc_ring
    const txBufs: array2<byte>     // tx_packet_buffers
    const rxBufs: array2<byte>     // rx_packet_buffers
    var tdrTail: int
    var rdrTail: int
    var regs: map<Reg, bv32>      // the e1000[] register file

    /**
     * Shapes agree with the configuration, both cursors designate a slot, and the card never
     * declares a received frame longer than a packet buffer: `rx_recv_packet` copies the
     * declared length without a bound check, so this is an assumption about the card.
     */
    ghost predicate Valid()
      reads this`tdrTail, this`rdrTail, rxRing
    {
      cfg.Valid() &&
      txRing.Length == cfg.ntdr && rxRing.Length == cfg.nrdr &&
      txBufs.Length0 == cfg.ntdr && txBufs.Length1 == cfg.bufSize &&
      rxBufs.Length0 == cfg.nrdr && rxBufs.Length1 == cfg.bufSize &&
      txBufs != rxBufs &&
      0 <= tdrTail < cfg.ntdr && 0 <= rdrTail < cfg.nrdr &&
      forall i :: 0 <= i < rxRing.Length ==> rxRing[i].length <= cfg.bufSize
    }

    /** The address `tx_init` binds to transmit descriptor `i`: that of its own packet buffer. */
    function TxBinding(i: nat): bv64 {
      cfg.paddr(TxBuf(i)) as bv64
    }

    /** The address `rx_init` binds to receive descriptor `i`. */
    function RxBinding(i: nat): bv64 {
      cfg.paddr(RxBuf(i)) as bv64
    }

    /** After `tx_init`: every descriptor is bound to its buffer and TDT shows the cursor. */
    ghost predicate TxReady()
      reads this`tdrTail, this`rdrTail, this`regs, txRing, rxRing
    {
      Valid() &&
      (forall i :: 0 <= i < txRing.Length ==> txRing[i].bufferAddr == TxBinding(i)) &&
      TDT in regs && regs[TDT] == Word(tdrTail)
    }

    /** After `rx_init`: every descriptor is bound to its buffer and RDT shows the cursor. */
    ghost predicate RxReady()
      reads this`tdrTail, this`rdrTail, this`regs, rxRing
    {
      Valid() &&
      (forall i :: 0 <= i < rxRing.Length ==> rxRing[i].bufferAddr == RxBinding(i)) &&
      RDT in regs && regs[RDT] == Word(rdrTail)
    }

    /** No transmit descriptor is seen as full by the test of `tx_send_packet` as written. */
    ghost predicate AllSlotsAccept()
      reads txRing
    {
      forall i :: 0 <= i < txRing.Length ==> !TxFull(cfg, txRing[i])
    }

    /** Bound transmit descriptors designate pairwise distinct packet buffers. */
    lemma TxBindingsDistinct(i: nat, j: nat)
      requires TxReady()
      requires i < j < txRing.Length
      ensures txRing[i].bufferAddr != txRing[j].bufferAddr
    {
      assert cfg.Exists(TxBuf(i)) && cfg.Exists(TxBuf(j)) && TxBuf(i) != TxBuf(j);
      assert cfg.paddr(TxBuf(i)) != cfg.paddr(TxBuf(j));
    }

    /** Bound receive descriptors designate pairwise distinct packet buffers. */
    lemma RxBindingsDistinct(i: nat, j: nat)
      requires RxReady()
      requires i < j < rxRing.Length
      ensures rxRing[i].bufferAddr != rxRing[j].bufferAddr
    {
      assert cfg.Exists(RxBuf(i)) && cfg.Exists(RxBuf(j)) && RxBuf(i) != RxBuf(j);
      assert cfg.paddr(RxBuf(i)) != cfg.paddr(RxBuf(j));
    }

    /** The statically allocated, zero-filled rings and buffers, before `tx_init` and `rx_init`. */
    constructor (cfg: Config)
      requires cfg.Valid()
      ensures Valid() && this.cfg == cfg
      ensures fresh(txRing) && fresh(rxRing) && fresh(txBufs) && fresh(rxBufs)
      ensures forall i :: 0 <= i < txRing.Length ==> txRing[i] == ZeroTx
      ensures forall i :: 0 <= i < rxRing.Length ==> rxRing[i] == ZeroRx
      ensures tdrTail == 0 && rdrTail == 0 && regs == map[]
      ensures AllSlotsAccept()
    {
      this.cfg := cfg;
      txRing := new TxDesc[cfg.ntdr](_ => ZeroTx);
      rxRing := new RxDesc[cfg.nrdr](_ => ZeroRx);
      txBufs := new byte[cfg.ntdr, cfg.bufSize];
      rxBufs := new byte[cfg.nrdr, cfg.bufSize];
      tdrTail := 0;
      rdrTail := 0;
      regs := map[];
    }

    /** `tx_init`: bind the transmit descriptors, zero the cursor, program the transmit registers. */
    method TxInit()
      requires Valid()
      modifies this`tdrTail, this`regs, txRing
      ensures Valid() && TxReady() && tdrTail == 0
      ensures forall i :: 0 <= i < txRing.Length ==> txRing[i] == old(txRing[i]).(bufferAddr := TxBinding(i))
      ensures regs == old(regs)[TDBAL := cfg.paddr(TxRingMem)][TDBAH := 0]
                               [TDLEN := Word(cfg.ntdr * DescSize)][TDH := 0][TDT := 0]
                               [TCTL := cfg.tctlEn | cfg.tctlPsp | 0x40000][TIPG := Tipg(10, 4, 6)]
      ensures old(AllSlotsAccept()) ==> AllSlotsAccept()
    {
      BindTxRing();
      tdrTail := 0;

      regs := regs[TDBAL := cfg.paddr(TxRingMem)];
      regs := regs[TDBAH := 0];
      regs := regs[TDLEN := Word(cfg.ntdr * DescSize)];
      regs := regs[TDH := 0];
      regs := regs[TDT := 0];
      regs := regs[TCTL := cfg.tctlEn | cfg.tctlPsp | 0x40000];
      regs := regs[TIPG := 10];                         // IPGT
      regs := regs[TIPG := regs[TIPG] | (4 << 10)];     // IPGR1
      regs := regs[TIPG := regs[TIPG] | (6 << 20)];     // IPGR2
    }

    /** The loop of `tx_init`: every transmit descriptor gets the address of its own packet buffer. */
    method BindTxRing()
      requires Valid()
      modifies txRing
      ensures forall i :: 0 <= i < txRing.Length ==> txRing[i] == old(txRing[i]).(bufferAddr := TxBinding(i))
      ensures old(AllSlotsAccept()) ==> AllSlotsAccept()
    {
      for i := 0 to cfg.ntdr
        invariant forall k :: 0 <= k < i ==> txRing[k] == old(txRing[k]).(bufferAddr := TxBinding(k))
        invariant forall k :: i <= k < txRing.Length ==> txRing[k] == old(txRing[k])
      {
        txRing[i] := txRing[i].(bufferAddr := TxBinding(i));
      }
    }

    /**
     * `tx_send_packet(buf, nbytes)`: panic on an oversized frame; report the ring full when the
     * test as written says so; otherwise copy the frame into the cursor's buffer, write the
     * descriptor, advance the cursor modulo the ring size and publish it in TDT.
     */
    method SendPacket(buf: seq<byte>, nbytes: nat) returns (o: Outcome<int>)
      requires Valid()
      requires nbytes <= cfg.bufSize ==> nbytes <= |buf|
      modifies this`tdrTail, this`regs, txRing, txBufs
      ensures Valid()
      ensures nbytes > cfg.bufSize ==> o == Panic
      ensures nbytes <= cfg.bufSize && TxFull(cfg, old(txRing[tdrTail])) ==> o == Ret(-(cfg.eTxdrFull as int))
      ensures nbytes <= cfg.bufSize && !TxFull(cfg, old(txRing[tdrTail])) ==> o == Ret(0)
      ensures o != Ret(0) ==> unchanged(this) && unchanged(txRing) && unchanged(txBufs)
      ensures o == Ret(0) ==>
                nbytes <= cfg.bufSize &&
                Submitted(old(tdrTail), buf, nbytes, WriteTxDesc(cfg, old(txRing[tdrTail]), Half(nbytes)))
      ensures old(TxReady()) ==> TxReady()
      ensures old(AllSlotsAccept()) && CommandBitsConventional(cfg) ==> AllSlotsAccept()
    {
      if nbytes > cfg.bufSize {
        return Panic;
      }
      if TxFull(cfg, txRing[tdrTail]) {
        return Ret(-(cfg.eTxdrFull as int));
      }
      var t := tdrTail;
      Submit(buf, nbytes, WriteTxDesc(cfg, txRing[t], Half(nbytes)));
      if CommandBitsConventional(cfg) && old(AllSlotsAccept()) {
        forall i | 0 <= i < txRing.Length
          ensures !TxFull(cfg, txRing[i])
        {
          if i == t {
            SentSlotNeverFull(cfg, old(txRing[t]), Half(nbytes));
          } else {
            assert txRing[i] == old(txRing[i]);
          }
        }
      }
      return Ret(0);
    }

    /**
     * The transmit operation with the evidently intended ring-full test (`TxBusy`), and DD cleared
     * in the status byte of the descriptor it submits; otherwise as `SendPacket`.
     */
    method SendPacketChecked(buf: seq<byte>, nbytes: nat) returns (o: Outcome<int>)
      requires Valid()
      requires nbytes <= cfg.bufSize ==> nbytes <= |buf|
      modifies this`tdrTail, this`regs, txRing, txBufs
      ensures Valid()
      ensures nbytes > cfg.bufSize ==> o == Panic
      ensures nbytes <= cfg.bufSize && TxBusy(cfg, old(txRing[tdrTail])) ==> o == Ret(-(cfg.eTxdrFull as int))
      ensures nbytes <= cfg.bufSize && !TxBusy(cfg, old(txRing[tdrTail])) ==> o == Ret(0)
      ensures o != Ret(0) ==> unchanged(this) && unchanged(txRing) && unchanged(txBufs)
      ensures o == Ret(0) ==>
                nbytes <= cfg.bufSize &&
                Submitted(old(tdrTail), buf, nbytes, WriteTxDescChecked(cfg, old(txRing[tdrTail]), Half(nbytes)))
      ensures old(TxReady()) ==> TxReady()
    {
      if nbytes > cfg.bufSize {
        return Panic;
      }
      if TxBusy(cfg, txRing[tdrTail]) {
        return Ret(-(cfg.eTxdrFull as int));
      }
      var t := tdrTail;
      Submit(buf, nbytes, WriteTxDescChecked(cfg, txRing[t], Half(nbytes)));
      return Ret(0);
    }

    /**
     * The state after a successful transmit from slot `t`: the frame is in slot `t`'s buffer and
     * nothing else of the buffers changed, slot `t` holds `desc`, the cursor moved one slot on
     * and TDT shows it.
     */
    twostate predicate Submitted(t: int, buf: seq<byte>, nbytes: nat, desc: TxDesc)
      reads this`tdrTail, this`rdrTail, this`regs, txRing, rxRing, txBufs
    {
      Valid() &&
      0 <= t < txRing.Length && nbytes <= |buf| && nbytes <= txBufs.Length1 &&
      txBufs.Length0 == txRing.Length &&
      txRing[..] == old(txRing[..])[t := desc] &&
      (forall j :: 0 <= j < nbytes ==> txBufs[t, j] == buf[j]) &&
      (forall i, j :: 0 <= i < txBufs.Length0 && 0 <= j < txBufs.Length1 && (i != t || nbytes <= j) ==>
         txBufs[i, j] == old(txBufs[i, j])) &&
      tdrTail == (t + 1) % txRing.Length &&
      regs == old(regs)[TDT := Word(tdrTail)] &&
      rdrTail == old(rdrTail)
    }

    /**
     * The common end of both transmit operations: copy the frame into the cursor's buffer, store
     * `desc` in the cursor's slot, then `tdr_tail = (tdr_tail + 1) % NTDRENTRIES` and publish the
     * new cursor in TDT.
     */
    method Submit(buf: seq<byte>, nbytes: nat, desc: TxDesc)
      requires Valid() && nbytes <= cfg.bufSize && nbytes <= |buf|
      modifies this`tdrTail, this`regs, txRing, txBufs
      ensures Submitted(old(tdrTail), buf, nbytes, desc)
      ensures old(TxReady()) && desc.bufferAddr == old(txRing[tdrTail].bufferAddr) ==> TxReady()
    {
      ghost var wasReady := TxReady();
      var t := tdrTail;
      CopyToRow(txBufs, t, buf, nbytes);
      txRing[t] := desc;
      tdrTail := (tdrTail + 1) % cfg.ntdr;
      regs := regs[TDT := Word(tdrTail)];
      if wasReady && desc.bufferAddr == old(txRing[t].bufferAddr) {
        forall i | 0 <= i < txRing.Length
          ensures txRing[i].bufferAddr == TxBinding(i)
        {
          if i != t {
            assert txRing[i] == old(txRing[i]);
          }
        }
      }
    }

    /**
     * `rx_init`: bind the receive descriptors, put the cursor on the last slot (so that slot 0 is
     * examined first), program the station address, clear the multicast table and program the
     * receive registers.
     */
    method RxInit()
      requires Valid()
      modifies this`rdrTail, this`regs, rxRing
      ensures Valid() && rdrTail == cfg.nrdr - 1
      ensures RxReady()
      ensures forall i :: 0 <= i < rxRing.Length ==> rxRing[i] == old(rxRing[i]).(bufferAddr := RxBinding(i))
      ensures regs == ClearMta(old(regs)[RAL := cfg.macAddrL][RAH := cfg.macAddrH | cfg.rahAv], cfg.nmta)
                        [RDBAL := cfg.paddr(RxRingMem)][RDBAH := 0][RDLEN := Word(cfg.nrdr * DescSize)]
                        [RDH := 0][RDT := Word(cfg.nrdr - 1)]
                        [RCTL := (cfg.rctlEn | cfg.rctlSecrc | cfg.rctlBam) & !cfg.rctlLpe]
    {
      BindRxRing();
      rdrTail := cfg.nrdr - 1;

      regs := regs[RAL := cfg.macAddrL];
      regs := regs[RAH := cfg.macAddrH | cfg.rahAv];
      ClearMulticastTable();

      regs := regs[RDBAL := cfg.paddr(RxRingMem)];
      regs := regs[RDBAH := 0];
      regs := regs[RDLEN := Word(cfg.nrdr * DescSize)];
      regs := regs[RDH := 0];
      regs := regs[RDT := Word(cfg.nrdr - 1)];
      assert regs[RDT] == Word(rdrTail);
      regs := regs[RCTL := (cfg.rctlEn | cfg.rctlSecrc | cfg.rctlBam) & !cfg.rctlLpe];
    }

    /** The first loop of `rx_init`: every receive descriptor gets the address of its own packet buffer. */
    method BindRxRing()
      requires Valid()
      modifies rxRing
      ensures Valid()
      ensures forall i :: 0 <= i < rxRing.Length ==> rxRing[i] == old(rxRing[i]).(bufferAddr := RxBinding(i))
    {
      for i := 0 to cfg.nrdr
        invariant Valid()
        invariant forall k :: 0 <= k < i ==> rxRing[k] == old(rxRing[k]).(bufferAddr := RxBinding(k))
        invariant forall k :: i <= k < rxRing.Length ==> rxRing[k] == old(rxRing[k])
      {
        rxRing[i] := rxRing[i].(bufferAddr := RxBinding(i));
      }
    }

    /** The second loop of `rx_init`: zero the `NMTAENTRIES` words of the multicast table. */
    method ClearMulticastTable()
      modifies this`regs
      ensures regs == ClearMta(old(regs), cfg.nmta)
    {
      for i := 0 to cfg.nmta
        invariant regs == ClearMta(old(regs), i)
      {
        regs := regs[MTA(i) := 0];
      }
    }

    /**
     * `rx_recv_packet(buf)`: examine only the slot after the cursor; if the card has not set DD
     * there, report the ring empty and change nothing; otherwise deliver that slot's frame.
     */
    method RecvPacket(buf: array<byte>) returns (r: int)
      requires Valid()
      requires cfg.bufSize <= buf.Length
      modifies this`rdrTail, this`regs, rxRing, buf
      ensures Valid()
      ensures !RxDone(cfg, old(rxRing[(rdrTail + 1) % cfg.nrdr])) ==>
                r == -(cfg.eRxdrEmpty as int) && unchanged(this) && unchanged(rxRing) && unchanged(buf)
      ensures RxDone(cfg, old(rxRing[(rdrTail + 1) % cfg.nrdr])) ==>
                Delivered((old(rdrTail) + 1) % cfg.nrdr, buf, r)
      ensures old(RxReady()) ==> RxReady()
    {
      var nextTail := (rdrTail + 1) % cfg.nrdr;
      if !RxDone(cfg, rxRing[nextTail]) {
        return -(cfg.eRxdrEmpty as int);
      }
      r := Deliver(nextTail, buf);
    }

    /**
     * The state after `rx_recv_packet` delivered the frame of slot `t`: the cursor is on `t` and
     * RDT shows it, `buf` starts with the `n` bytes the card declared and is unchanged beyond
     * them, and slot `t` has DD cleared and is otherwise as the card left it.
     */
    twostate predicate Delivered(t: int, buf: array<byte>, n: int)
      reads this`tdrTail, this`rdrTail, this`regs, rxRing, rxBufs, buf
    {
      Valid() &&
      0 <= t < rxRing.Length && rxBufs.Length0 == rxRing.Length &&
      n == old(rxRing[t].length) && n <= rxBufs.Length1 && n <= buf.Length &&
      rdrTail == t &&
      (forall j :: 0 <= j < n ==> buf[j] == rxBufs[t, j]) &&
      buf[n..] == old(buf[n..]) &&
      rxRing[..] == old(rxRing[..])[t := ClearRxDone(cfg, old(rxRing[t]))] &&
      regs == old(regs)[RDT := Word(rdrTail)] &&
      tdrTail == old(tdrTail)
    }

    /**
     * The delivering half of `rx_recv_packet`: move the cursor to slot `t`, copy the declared
     * length into `buf`, clear DD, publish the cursor in RDT and return the length.
     */
    method Deliver(t: int, buf: array<byte>) returns (n: int)
      requires Valid() && 0 <= t < cfg.nrdr && cfg.bufSize <= buf.Length
      modifies this`rdrTail, this`regs, rxRing, buf
      ensures Delivered(t, buf, n)
      ensures old(RxReady()) ==> RxReady()
    {
      rdrTail := t;
      CopyFromRow(buf, rxBufs, rdrTail, rxRing[rdrTail].length);

      rxRing[rdrTail] := ClearRxDone(cfg, rxRing[rdrTail]);
      assert rxRing[rdrTail].length == old(rxRing[t].length);
      regs := regs[RDT := Word(rdrTail)];
      return rxRing[rdrTail].length;
    }

    /** The card reports the frame of transmit slot `i` sent: DD set in its status byte. */
    method DeviceCompleteTx(i: int)
      requires Valid() && 0 <= i < cfg.ntdr
      modifies txRing
      ensures txRing[..] == old(txRing[..])[i := MarkTxDone(cfg, old(txRing[i]))]
      ensures old(TxReady()) ==> TxReady()
      ensures old(AllSlotsAccept()) ==> AllSlotsAccept()
    {
      txRing[i] := MarkTxDone(cfg, txRing[i]);
      TxGuardIgnoresCompletion(cfg, old(txRing[i]));
    }

    /** The card stores an incoming frame in receive slot `i`: buffer, length and DD. */
    method DeviceFillRx(i: int, frame: seq<byte>)
      requires Valid() && 0 <= i < cfg.nrdr && |frame| <= cfg.bufSize
      modifies rxRing, rxBufs
      ensures Valid()
      ensures rxRing[..] == old(rxRing[..])[i := FillRx(cfg, old(rxRing[i]), |frame|)]
      ensures forall j :: 0 <= j < |frame| ==> rxBufs[i, j] == frame[j]
      ensures forall k, j :: 0 <= k < rxBufs.Length0 && 0 <= j < rxBufs.Length1 && (k != i || |frame| <= j) ==>
                rxBufs[k, j] == old(rxBufs[k, j])
      ensures old(RxReady()) ==> RxReady()
    {
      CopyToRow(rxBufs, i, frame, |frame|);
      rxRing[i] := FillRx(cfg, rxRing[i], |frame|);
    }
  }
}
