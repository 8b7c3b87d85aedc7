/**
 * The memory platform: `Memory` targets of SIZE bytes, a `Router` fanning a
 * flat address space out over N_TARGETS of them, and an `Initiator` that
 * reads through the router with `b_transport` and switches to a direct
 * memory interface (DMI) grant once one is held.
 *
 * The sizes are those the top level instantiates: four targets of the
 * default 256 bytes. DMI pointers are abstract host byte addresses: each
 * memory's array starts at its own `base`.
 */
module Platform {
  import opened Tlm

  const SIZE: nat := 256
  const N_TARGETS: nat := 4
  const WORDS: nat := 64                 // `int mem[SIZE/4]`
  const DMI_LATENCY: nat := 1            // nanoseconds

  /** Address decoding: the target `address / SIZE` and the local offset `address % SIZE`. */
  function Route(address: nat): (r: (nat, nat))
    ensures r.0 * SIZE + r.1 == address && r.1 < SIZE
    ensures address < N_TARGETS * SIZE <==> r.0 < N_TARGETS
  {
    (address / SIZE, address % SIZE)
  }

  /** Decoding is one-to-one: each (target, offset) pair has exactly one global address. */
  lemma RouteCompose(t: nat, offset: nat)
    requires offset < SIZE
    ensures Route(t * SIZE + offset) == (t, offset)
  {
  }

  /**
   * The ordered validation of `Memory::b_transport`: address first, then
   * byte enable, then burst (length above 4 or streaming width below it).
   */
  function Validate(adr: nat, byteEnable: bool, len: nat, wid: nat): (s: Status)
    ensures s == AddressError <==> adr >= SIZE
    ensures s == ByteEnableError <==> adr < SIZE && byteEnable
    ensures s == BurstError <==> adr < SIZE && !byteEnable && (len > 4 || wid < len)
    ensures s == Ok <==> adr < SIZE && !byteEnable && len <= 4 && wid >= len
  {
    if adr >= SIZE then AddressError
    else if byteEnable then ByteEnableError
    else if len > 4 || wid < len then BurstError
    else Ok
  }

  /** The memory contents, the payload buffer, the status and whether `dmi_allowed` is set. */
  datatype Served = Served(mem: seq<Word>, data: seq<Byte>, status: Status, dmiAllowed: bool)

  /**
   * What `Memory::b_transport` does to its words and the payload: on a
   * validation error nothing but the status; otherwise `len` bytes of word
   * `adr / 4` are read or written, DMI is allowed and the status is OK.
   */
  function Serve(mem: seq<Word>, cmd: Command, adr: nat, data: seq<Byte>, len: nat, wid: nat,
                 byteEnable: bool): (r: Served)
    requires |mem| == WORDS && len <= |data|
    ensures |r.mem| == WORDS && |r.data| == |data|
  {
    var s := Validate(adr, byteEnable, len, wid);
    if s != Ok then Served(mem, data, s, false)
    else if cmd == Read then Served(mem, CopyPrefix(data, mem[adr / 4], len), Ok, true)
    else if cmd == Write then Served(mem[adr / 4 := CopyPrefix(mem[adr / 4], data, len)], data, Ok, true)
    else Served(mem, data, Ok, true)
  }

  /** A rejected transaction leaves memory and buffer as they were and does not allow DMI. */
  lemma ServeErrorChangesNothing(mem: seq<Word>, cmd: Command, adr: nat, data: seq<Byte>, len: nat,
                                 wid: nat, byteEnable: bool)
    requires |mem| == WORDS && len <= |data|
    requires Validate(adr, byteEnable, len, wid) != Ok
    ensures Serve(mem, cmd, adr, data, len, wid, byteEnable) ==
              Served(mem, data, Validate(adr, byteEnable, len, wid), false)
  {
  }

  /** A 4-byte write followed by a 4-byte read of the same address returns the value written. */
  lemma ServeWriteThenRead(mem: seq<Word>, adr: nat, w: Word, buf: Word)
    requires |mem| == WORDS && adr < SIZE
    ensures var after := Serve(mem, Write, adr, w, 4, 4, false);
            Serve(after.mem, Read, adr, buf, 4, 4, false) == Served(after.mem, w, Ok, true)
  {
  }

  /** The grant of `Memory::get_direct_mem_ptr`: read/write over [0, SIZE - 1] from `base`, 1 ns each way. */
  function MemoryGrant(base: int): (d: Dmi)
    ensures d.readAllowed && d.writeAllowed && d.start == 0 && d.end == SIZE - 1
  {
    Dmi(base, 0, SIZE - 1, true, true, DMI_LATENCY, DMI_LATENCY)
  }

  /**
   * The router's translation of a target's grant into global coordinates:
   * the range moves up by `t * SIZE` and the pointer down by as much, so
   * the first address of the window names the same host byte as before.
   */
  function TranslateGrant(d: Dmi, t: nat): (r: Dmi)
    ensures r.start == t * SIZE + d.start && r.end == t * SIZE + d.end
    ensures r.ptr + r.start == d.ptr + d.start
    ensures r.(ptr := d.ptr, start := d.start, end := d.end) == d
  {
    d.(ptr := d.ptr - t * SIZE, start := t * SIZE + d.start, end := t * SIZE + d.end)
  }

  /** The window the router grants for target t is exactly the global addresses that decode to t. */
  lemma {:induction false} GrantCoversExactlyTarget(t: nat, base: int, a: nat)
    ensures var g := TranslateGrant(MemoryGrant(base), t); g.start <= a <= g.end <==> Route(a).0 == t
  {
    var g := TranslateGrant(MemoryGrant(base), t);
    var (u, offset) := Route(a);
    if u < t {
      assert a < t * SIZE by {
        assert a == u * SIZE + offset && offset < SIZE;
        assert (u + 1) * SIZE <= t * SIZE;
      }
    } else if u > t {
      assert a > g.end by {
        assert (t + 1) * SIZE <= u * SIZE;
      }
    }
  }

  /**
   * DMI consistency: inside the window the router grants for target t,
   * the pointer plus a global address is the host address of byte
   * `Route(a).1` of target t's memory; for an aligned address that is the
   * first byte of word `Route(a).1 / 4`, the word `b_transport` serves.
   */
  lemma {:induction false} DmiConsistency(t: nat, base: int, a: nat)
    requires var g := TranslateGrant(MemoryGrant(base), t); g.start <= a <= g.end
    ensures Route(a).0 == t
    ensures TranslateGrant(MemoryGrant(base), t).ptr + a == base + Route(a).1
    ensures a % 4 == 0 ==> TranslateGrant(MemoryGrant(base), t).ptr + a == base + 4 * (Route(a).1 / 4)
  {
    RouteCompose(t, a - t * SIZE);
    assert a == t * SIZE + (a - t * SIZE);
  }

  /*
   * Host memory. `memcpy` through a DMI pointer sees a memory's words as
   * consecutive host bytes: byte b of word j sits at offset `4 * j + b`.
   */

  /** `memcpy(&data, host + off, 4)`: the four host bytes at offsets `off .. off + 3`. */
  function ReadBytes(mem: seq<Word>, off: nat): (w: Word)
    requires off + 4 <= 4 * |mem|
    ensures forall j, b :: 0 <= j < |mem| && 0 <= b < 4 && off <= 4 * j + b < off + 4 ==>
              w[4 * j + b - off] == mem[j][b]
  {
    var q, r := off / 4, off % 4;
    seq(4, b requires 0 <= b < 4 => if r + b < 4 then mem[q][r + b] else mem[q + 1][r + b - 4])
  }

  /** Word j of the memory after `memcpy(host + off, &src, 4)`. */
  function WrittenWord(mem: seq<Word>, off: nat, src: Word, j: nat): (w: Word)
    requires j < |mem|
    ensures forall b :: 0 <= b < 4 ==>
              w[b] == if off <= 4 * j + b < off + 4 then src[4 * j + b - off] else mem[j][b]
  {
    seq(4, b requires 0 <= b < 4 =>
          if off <= 4 * j + b < off + 4 then src[4 * j + b - off] else mem[j][b])
  }

  /** `memcpy(host + off, &src, 4)`: host bytes `off .. off + 3` become `src`, every other byte is kept. */
  function WriteBytes(mem: seq<Word>, off: nat, src: Word): (r: seq<Word>)
    requires off + 4 <= 4 * |mem|
    ensures |r| == |mem|
    ensures forall j, b :: 0 <= j < |mem| && 0 <= b < 4 ==>
              r[j][b] == if off <= 4 * j + b < off + 4 then src[4 * j + b - off] else mem[j][b]
  {
    seq(|mem|, j requires 0 <= j < |mem| => WrittenWord(mem, off, src, j))
  }

  /**
   * A 4-byte copy at `off` changes word `off / 4`, and word `off / 4 + 1`
   * only when `off` is unaligned; every other word is kept.
   */
  lemma {:induction false} WriteBytesTouches(mem: seq<Word>, off: nat, src: Word, j: nat)
    requires off + 4 <= 4 * |mem| && j < |mem| && j != off / 4
    requires j == off / 4 + 1 ==> off % 4 == 0
    ensures WriteBytes(mem, off, src)[j] == mem[j]
  {
    var r := WriteBytes(mem, off, src);
    var q := off / 4;
    assert off == 4 * q + off % 4;
    forall b | 0 <= b < 4
      ensures r[j][b] == mem[j][b]
    {
      assert !(off <= 4 * j + b < off + 4);
    }
  }

  /** At an aligned offset, a DMI read is the word `b_transport` reads there. */
  lemma {:induction false} DmiReadAligned(mem: seq<Word>, off: nat, buf: Word)
    requires |mem| == WORDS && off < SIZE && off % 4 == 0
    ensures ReadBytes(mem, off) == mem[off / 4] == Serve(mem, Read, off, buf, 4, 4, false).data
  {
    var w := ReadBytes(mem, off);
    var q := off / 4;
    assert 4 * q == off;
    forall b | 0 <= b < 4
      ensures w[b] == mem[q][b]
    {
      assert w[4 * q + b - off] == mem[q][b];
    }
    CopyWhole(buf, mem[q]);
  }

  /** At an aligned offset, a DMI write replaces exactly the word `b_transport` writes there. */
  lemma {:induction false} DmiWriteAligned(mem: seq<Word>, off: nat, src: Word)
    requires |mem| == WORDS && off < SIZE && off % 4 == 0
    ensures WriteBytes(mem, off, src) == mem[off / 4 := src] == Serve(mem, Write, off, src, 4, 4, false).mem
  {
    var r := WriteBytes(mem, off, src);
    var e := mem[off / 4 := src];
    var q := off / 4;
    assert 4 * q == off;
    forall j | 0 <= j < WORDS
      ensures r[j] == e[j]
    {
      forall b | 0 <= b < 4
        ensures r[j][b] == e[j][b]
      {
        assert off <= 4 * j + b < off + 4 <==> j == q;
      }
    }
    CopyWhole(mem[q], src);
  }

  /** A word written with `b_transport` at an aligned address reads back through DMI. */
  lemma TransportWriteThenDmiRead(mem: seq<Word>, off: nat, w: Word)
    requires |mem| == WORDS && off < SIZE && off % 4 == 0
    ensures ReadBytes(Serve(mem, Write, off, w, 4, 4, false).mem, off) == w
  {
    var after := Serve(mem, Write, off, w, 4, 4, false);
    DmiReadAligned(after.mem, off, w);
    ServeWriteThenRead(mem, off, w, w);
  }

  /**
   * At an unaligned offset the two paths disagree: in a freshly built
   * memory (`mem[i] == 4 * i`), DMI at offset 5 copies bytes 5 .. 8, whose
   * first byte is 0, while `b_transport` at 5 copies word 1, whose first
   * byte is 4.
   */
  lemma UnalignedDmiDiffersFromTransport(mem: seq<Word>, buf: Word)
    requires |mem| == WORDS && mem[1] == WordOf(4)
    ensures ReadBytes(mem, 5) != Serve(mem, Read, 5, buf, 4, 4, false).data
  {
    assert WordOf(4) == [4, 0, 0, 0];
    assert ReadBytes(mem, 5)[0] == mem[1][1] == 0;
    assert Serve(mem, Read, 5, buf, 4, 4, false).data[0] == mem[1][0] == 4;
  }

  /** The range the router forwards upstream for an invalidation from target `id`. */
  function BackwardRange(id: nat, start: nat, end: nat): (r: (nat, nat))
    ensures start < SIZE ==> Route(r.0) == (id, start)
    ensures end < SIZE ==> Route(r.1) == (id, end)
    ensures r.1 - r.0 == end - start
  {
    (id * SIZE + start, id * SIZE + end)
  }

  /** `Memory<SIZE>`. */
  class Memory {
    const mem: array<Word>
    const base: int                  // host address of `mem[0]`

    predicate Valid() {
      mem.Length == WORDS
    }

    /** The constructor: `mem[i] = 4 * i` for every word. */
    constructor (base: int)
      ensures Valid() && fresh(mem) && this.base == base
      ensures forall i :: 0 <= i < WORDS ==> mem[i] == WordOf(4 * i)
    {
      var m := new Word[WORDS];
      var i := 0;
      while i < WORDS
        invariant 0 <= i <= WORDS
        invariant forall j :: 0 <= j < i ==> m[j] == WordOf(4 * j)
      {
        m[i] := WordOf(4 * i);
        i := i + 1;
      }
      mem := m;
      this.base := base;
    }

    /** `b_transport`: validate, then read or write one word; the returned delay is zero on success. */
    method BTransport(p: Payload, delay: nat) returns (delayOut: nat)
      requires Valid() && p.dataLength <= |p.data|
      modifies mem, p`data, p`status, p`dmiAllowed
      ensures var r := Serve(old(mem[..]), p.command, p.address, old(p.data), p.dataLength,
                             p.streamingWidth, p.byteEnable);
              mem[..] == r.mem && p.data == r.data && p.status == r.status
              && p.dmiAllowed == (r.dmiAllowed || old(p.dmiAllowed))
              && delayOut == (if r.status == Ok then 0 else delay)
    {
      var cmd, adr, len, wid := p.command, p.address, p.dataLength, p.streamingWidth;
      if adr >= SIZE {
        p.status := AddressError;
        return delay;
      }
      if p.byteEnable {
        p.status := ByteEnableError;
        return delay;
      }
      if len > 4 || wid < len {
        p.status := BurstError;
        return delay;
      }
      if cmd == Read {
        p.data := CopyPrefix(p.data, mem[adr / 4], len);
      } else if cmd == Write {
        mem[adr / 4] := CopyPrefix(mem[adr / 4], p.data, len);
      }
      delayOut := 0;   // after waiting out the annotated delay
      p.dmiAllowed := true;
      p.status := Ok;
    }

    /** `get_direct_mem_ptr`: always grants read/write access to the whole memory. */
    method GetDirectMemPtr(p: Payload, dmi: Dmi) returns (ok: bool, d: Dmi)
      ensures ok
      ensures d.readAllowed && d.writeAllowed && d.ptr == base
      ensures d.start == 0 && d.end == SIZE - 1
      ensures d.readLatency == DMI_LATENCY && d.writeLatency == DMI_LATENCY
    {
      d := dmi.(readAllowed := true, writeAllowed := true);
      d := d.(ptr := base);
      d := d.(start := 0);
      d := d.(end := SIZE - 1);
      d := d.(readLatency := DMI_LATENCY);
      d := d.(writeLatency := DMI_LATENCY);
      ok := true;
    }
  }

  /** `Router<N_TARGETS, SIZE>`; `targets[i]` is the memory bound to initiator socket i. */
  class Router {
    const targets: seq<Memory>

    predicate Valid() {
      && |targets| == N_TARGETS
      && (forall i :: 0 <= i < |targets| ==> targets[i].Valid())
      && (forall i, j :: 0 <= i < j < |targets| ==> targets[i].mem != targets[j].mem)
    }

    constructor (targets: seq<Memory>)
      requires |targets| == N_TARGETS
      requires forall i :: 0 <= i < |targets| ==> targets[i].Valid()
      requires forall i, j :: 0 <= i < j < |targets| ==> targets[i].mem != targets[j].mem
      ensures Valid() && this.targets == targets
    {
      this.targets := targets;
    }

    /**
     * `b_transport`: forward to target `address / SIZE` with the address
     * rewritten to `address % SIZE`, then restore the address. The target
     * index is not checked, so the caller keeps the address below
     * N_TARGETS * SIZE.
     */
    method BTransport(p: Payload, delay: nat) returns (delayOut: nat)
      requires Valid() && p.address < N_TARGETS * SIZE && p.dataLength <= |p.data|
      modifies p`address, p`data, p`status, p`dmiAllowed, targets[Route(p.address).0].mem
      ensures p.address == old(p.address)
      ensures var (t, offset) := Route(p.address);
              var r := Serve(old(targets[t].mem[..]), p.command, offset, old(p.data), p.dataLength,
                             p.streamingWidth, p.byteEnable);
              targets[t].mem[..] == r.mem && p.data == r.data && p.status == r.status
              && p.dmiAllowed == (r.dmiAllowed || old(p.dmiAllowed))
              && delayOut == (if r.status == Ok then 0 else delay)
    {
      var address := p.address;
      var targetNr := address / SIZE;
      p.address := address % SIZE;
      delayOut := targets[targetNr].BTransport(p, delay);
      p.address := targetNr * SIZE + address % SIZE;
    }

    /**
     * `get_direct_mem_ptr`: ask target `address / SIZE` and translate its
     * grant to global coordinates; the payload keeps the local address.
     */
    method GetDirectMemPtr(p: Payload, dmi: Dmi) returns (ok: bool, d: Dmi)
      requires Valid() && p.address < N_TARGETS * SIZE
      modifies p`address
      ensures var (t, offset) := Route(old(p.address));
              ok && d == TranslateGrant(MemoryGrant(targets[t].base), t) && p.address == offset
    {
      var address := p.address;
      var targetNr := address / SIZE;
      p.address := address % SIZE;
      ok, d := targets[targetNr].GetDirectMemPtr(p, dmi);
      d := d.(start := targetNr * SIZE + d.start);
      d := d.(end := targetNr * SIZE + d.end);
      d := d.(ptr := d.ptr - targetNr * SIZE);
    }
  }

  /** Where one initiator access went. */
  datatype Access =
    | DmiRead(host: int, latency: nat)       // `memcpy` from the host address, then wait
    | DmiWrite(host: int, latency: nat)      // `memcpy` to the host address, then wait
    | DmiIdle                                // neither read nor write: nothing to copy
    | Transported(delay: nat)                // through `b_transport`

  /** The DMI test of `Initiator::thread`: a valid grant whose range contains the address. */
  predicate UsesDmi(valid: bool, d: Dmi, i: nat) {
    valid && d.start <= i <= d.end
  }

  /** `memcpy(host + off, &src, 4)` on a memory's word array: one word, or two when `off` is unaligned. */
  method WriteWords(m: array<Word>, off: nat, src: Word)
    requires m.Length == WORDS && off + 4 <= SIZE
    modifies m
    ensures m[..] == WriteBytes(old(m[..]), off, src)
  {
    var w := WriteBytes(m[..], off, src);
    forall j | 0 <= j < WORDS && j != off / 4 && (j == off / 4 + 1 ==> off % 4 == 0)
      ensures w[j] == m[j]
    {
      WriteBytesTouches(m[..], off, src, j);
    }
    m[off / 4] := w[off / 4];
    if off % 4 != 0 {
      m[off / 4 + 1] := w[off / 4 + 1];
    }
    assert m[..] == w;
  }

  /** `Initiator`: one payload reused for every `b_transport`, and the DMI grant it holds. */
  class Initiator {
    var data: Word
    var dmiData: Dmi
    var dmiPtrValid: bool
    var errorReports: nat            // `SC_REPORT_ERROR` on a response error
    ghost var grantTarget: nat       // the target whose grant `dmiData` is
    const trans: Payload
    const router: Router

    ghost predicate Valid()
      reads this
    {
      && router.Valid()
      && (dmiPtrValid ==>
            grantTarget < N_TARGETS
            && dmiData == TranslateGrant(MemoryGrant(router.targets[grantTarget].base), grantTarget))
    }

    /** The constructor; `dmi_ptr_valid` is left uninitialised there, and the model starts it false. */
    constructor (router: Router)
      requires router.Valid()
      ensures Valid() && this.router == router && fresh(trans)
      ensures !dmiPtrValid && errorReports == 0
    {
      this.router := router;
      data := WordOf(0);
      dmiData := InitDmi();
      dmiPtrValid := false;
      errorReports := 0;
      grantTarget := 0;
      trans := new Payload();
    }

    /** `invalidate_direct_mem_ptr`: drop the grant whatever the range. */
    method InvalidateDirectMemPtr(start: nat, end: nat)
      requires Valid()
      modifies this`dmiPtrValid
      ensures Valid() && !dmiPtrValid
    {
      dmiPtrValid := false;
    }

    /**
     * One iteration of the loop in `thread`, at address i: the DMI path if
     * and only if the held grant is valid and covers i, `b_transport`
     * otherwise, after which a grant is requested when the target allows DMI.
     * A DMI copy of 4 bytes must stay inside the memory the pointer designates.
     */
    method Step(i: nat, cmd: Command) returns (o: Access)
      requires Valid() && i < N_TARGETS * SIZE
      requires UsesDmi(dmiPtrValid, dmiData, i) ==> Route(i).1 + 4 <= SIZE
      modifies this, trans, router.targets[Route(i).0].mem
      ensures Valid()
      ensures o.Transported? <==> !UsesDmi(old(dmiPtrValid), old(dmiData), i)
      ensures o.DmiRead? <==> !o.Transported? && cmd == Read
      ensures o.DmiWrite? <==> !o.Transported? && cmd == Write
      ensures !o.Transported? ==>
                var (t, offset) := Route(i);
                var m := router.targets[t].mem;
                && unchanged(trans) && grantTarget == t
                && dmiData == old(dmiData) && dmiPtrValid && errorReports == old(errorReports)
                && (cmd == Read ==> data == ReadBytes(old(m[..]), offset) && m[..] == old(m[..]))
                && (cmd == Write ==> m[..] == WriteBytes(old(m[..]), offset, old(data)) && data == old(data))
                && (cmd == Ignore ==> data == old(data) && m[..] == old(m[..]))
                && (o.DmiRead? || o.DmiWrite? ==> o.latency == DMI_LATENCY && o.host == router.targets[t].base + offset)
      ensures o.Transported? ==>
                var (t, offset) := Route(i);
                var r := Serve(old(router.targets[t].mem[..]), cmd, offset, old(data), 4, 4, false);
                && o.delay == (if r.status == Ok then 0 else 10)
                && router.targets[t].mem[..] == r.mem && data == r.data && trans.status == r.status
                && errorReports == old(errorReports) + (if IsResponseError(r.status) then 1 else 0)
                && dmiPtrValid == (r.dmiAllowed || old(dmiPtrValid))
                && (r.dmiAllowed ==> grantTarget == t && trans.address == offset)
    {
      if dmiPtrValid && i >= dmiData.start && i <= dmiData.end {
        o := DmiAccess(i, cmd);
      } else {
        o := TransportAccess(i, cmd);
      }
    }

    /**
     * The DMI branch of the loop: check the permission (the source's
     * `assert`), then `memcpy` 4 bytes between `data` and the host bytes at
     * pointer + i. Host memory is the targets' word arrays; the pointer lands
     * in the memory of the grant's target, found here by decoding i, which
     * `DmiConsistency` shows is the same target.
     */
    method DmiAccess(i: nat, cmd: Command) returns (o: Access)
      requires Valid() && UsesDmi(dmiPtrValid, dmiData, i) && Route(i).1 + 4 <= SIZE
      modifies this`data, router.targets[Route(i).0].mem
      ensures !o.Transported?
      ensures o.DmiRead? <==> cmd == Read
      ensures o.DmiWrite? <==> cmd == Write
      ensures var (t, offset) := Route(i);
              var m := router.targets[t].mem;
              && grantTarget == t
              && (cmd == Read ==> data == ReadBytes(old(m[..]), offset) && m[..] == old(m[..]))
              && (cmd == Write ==> m[..] == WriteBytes(old(m[..]), offset, old(data)) && data == old(data))
              && (cmd == Ignore ==> data == old(data) && m[..] == old(m[..]))
              && (o.DmiRead? || o.DmiWrite? ==> o.latency == DMI_LATENCY && o.host == router.targets[t].base + offset)
    {
      DmiConsistency(grantTarget, router.targets[grantTarget].base, i);
      var t := i / SIZE;
      var m := router.targets[t].mem;
      var host := dmiData.ptr + i;
      var off := host - router.targets[t].base;
      assert off == Route(i).1;
      if cmd == Read {
        assert dmiData.readAllowed;
        data := ReadBytes(m[..], off);
        o := DmiRead(host, dmiData.readLatency);
      } else if cmd == Write {
        assert dmiData.writeAllowed;
        WriteWords(m, off, data);
        o := DmiWrite(host, dmiData.writeLatency);
      } else {
        o := DmiIdle;
      }
    }

    /** The `b_transport` branch of the loop, followed by a grant request when DMI is allowed. */
    method TransportAccess(i: nat, cmd: Command) returns (o: Access)
      requires Valid() && i < N_TARGETS * SIZE
      modifies this, trans, router.targets[Route(i).0].mem
      ensures Valid()
      ensures o.Transported?
      ensures var (t, offset) := Route(i);
              var r := Serve(old(router.targets[t].mem[..]), cmd, offset, old(data), 4, 4, false);
              && o.delay == (if r.status == Ok then 0 else 10)
              && router.targets[t].mem[..] == r.mem && data == r.data && trans.status == r.status
              && errorReports == old(errorReports) + (if IsResponseError(r.status) then 1 else 0)
              && dmiPtrValid == (r.dmiAllowed || old(dmiPtrValid))
              && (r.dmiAllowed ==> grantTarget == t && trans.address == offset)
              && (!r.dmiAllowed ==> dmiData == old(dmiData) && grantTarget == old(grantTarget))
      ensures trans.status == Ok && dmiPtrValid
    {
      trans.SetWordRequest(cmd, i, data);   // the data pointer is `&data`
      var delay := router.BTransport(trans, 10);
      data := trans.data;
      // SC_REPORT_ERROR on a response error
      errorReports := errorReports + (if IsResponseError(trans.status) then 1 else 0);
      if trans.dmiAllowed {
        dmiData := InitDmi();
        dmiPtrValid, dmiData := router.GetDirectMemPtr(trans, dmiData);
        grantTarget := i / SIZE;
      }
      o := Transported(delay);
    }
  }
}
