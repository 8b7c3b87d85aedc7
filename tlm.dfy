/**
 * The TLM-2.0 base-protocol vocabulary shared by every component of the
 * model: commands, response statuses, phases, the return values of the
 * non-blocking transport calls, the generic payload and the DMI record
 * (IEEE 1666-2011, clause 14).
 *
 * Data buffers are modelled as byte sequences; a 32-bit register or memory
 * word is four bytes in little-endian order (the host byte order assumed
 * for every `memcpy` of an `int` in the modelled code).
 */
module Tlm {

  datatype Option<T> = None | Some(value: T)

  /** An unsigned 8-bit value. */
  type Byte = b: int | 0 <= b < 0x100

  /** A 32-bit word as the four bytes `memcpy` sees, least significant first. */
  type Word = w: seq<Byte> | |w| == 4 witness [0, 0, 0, 0]

  const WORD_LIMIT: nat := 0x1_0000_0000

  /** The little-endian bytes of an unsigned 32-bit value. */
  function WordOf(n: nat): (w: Word)
    requires n < WORD_LIMIT
    ensures ValueOf(w) == n
  {
    var q1 := n / 0x100;
    var q2 := q1 / 0x100;
    var q3 := q2 / 0x100;
    assert n == n % 0x100 + 0x100 * q1;
    assert q1 == q1 % 0x100 + 0x100 * q2;
    assert q2 == q2 % 0x100 + 0x100 * q3;
    [n % 0x100, q1 % 0x100, q2 % 0x100, q3]
  }

  /** The unsigned 32-bit value held in a word. */
  function ValueOf(w: Word): (n: nat)
    ensures n < WORD_LIMIT
  {
    w[0] as int + 0x100 * w[1] as int + 0x1_0000 * w[2] as int + 0x100_0000 * w[3] as int
  }

  /** `memcpy(dst, src, len)`: the first `len` bytes of `dst` are replaced by those of `src`. */
  function CopyPrefix(dst: seq<Byte>, src: seq<Byte>, len: nat): (r: seq<Byte>)
    requires len <= |dst| && len <= |src|
    ensures |r| == |dst|
    ensures forall k :: 0 <= k < |r| ==> r[k] == if k < len then src[k] else dst[k]
  {
    src[..len] + dst[len..]
  }

  /** Copying a whole buffer over one of the same length yields the source. */
  lemma CopyWhole(dst: seq<Byte>, src: seq<Byte>)
    requires |dst| == |src|
    ensures CopyPrefix(dst, src, |src|) == src
  {
  }

  /** `tlm_command`: TLM_READ_COMMAND = 0, TLM_WRITE_COMMAND = 1, TLM_IGNORE_COMMAND = 2. */
  datatype Command = Read | Write | Ignore

  function CommandCode(c: Command): (n: nat)
    ensures n < 3
  {
    match c
    case Read => 0
    case Write => 1
    case Ignore => 2
  }

  /**
   * `tlm_response_status`. The standard numbers OK as 1, INCOMPLETE as 0 and
   * the errors as negative values; `is_response_error()` is `status <= 0`.
   */
  datatype Status =
    | Ok | Incomplete | GenericError | AddressError | CommandError | BurstError | ByteEnableError

  predicate IsResponseError(s: Status) {
    s != Ok
  }

  /** The four base-protocol phases and the DSP's extended phase `internal_ph`. */
  datatype Phase = BeginReq | EndReq | BeginResp | EndResp | Internal

  /** `tlm_sync_enum`: the value returned by `nb_transport_fw` and `nb_transport_bw`. */
  datatype Sync = Accepted | Updated | Completed

  /** The generic payload `tlm_generic_payload`, shared by reference between components. */
  class Payload {
    var command: Command
    var address: nat
    var data: seq<Byte>       // the bytes behind the data pointer
    var dataLength: nat
    var streamingWidth: nat
    var byteEnable: bool      // true when a byte-enable pointer is set
    var dmiAllowed: bool
    var status: Status
    var refCount: int

    /** The default constructor of the generic payload. */
    constructor ()
      ensures command == Ignore && address == 0 && data == [] && dataLength == 0
      ensures streamingWidth == 0 && !byteEnable && !dmiAllowed
      ensures status == Incomplete && refCount == 0
    {
      command := Ignore;
      address := 0;
      data := [];
      dataLength := 0;
      streamingWidth := 0;
      byteEnable := false;
      dmiAllowed := false;
      status := Incomplete;
      refCount := 0;
    }

    /** `acquire()`: one more reference. */
    method Acquire()
      modifies this`refCount
      ensures refCount == old(refCount) + 1
    {
      refCount := refCount + 1;
    }

    /**
     * Every attribute an initiator must set before sending a one-word request:
     * command, address, a 4-byte buffer and length, width 4, no byte enable,
     * DMI hint cleared and status INCOMPLETE.
     */
    method SetWordRequest(cmd: Command, adr: nat, w: seq<Byte>)
      modifies this
      ensures command == cmd && address == adr && data == w
      ensures dataLength == 4 && streamingWidth == 4 && !byteEnable
      ensures !dmiAllowed && status == Incomplete && refCount == old(refCount)
    {
      command, address, data := cmd, adr, w;
      dataLength, streamingWidth, byteEnable := 4, 4, false;
      dmiAllowed, status := false, Incomplete;
    }
  }

  /** One PEQ entry or one transport call: payload, phase and delay in nanoseconds. */
  datatype Event = Event(trans: Payload, phase: Phase, delay: nat)

  /**
   * The `tlm_dmi` record. The pointer is an abstract host byte address,
   * which may be shifted below the memory it designates.
   */
  datatype Dmi = Dmi(ptr: int, start: nat, end: nat, readAllowed: bool, writeAllowed: bool,
                     readLatency: nat, writeLatency: nat)

  const UINT64_MAX: nat := 0xFFFF_FFFF_FFFF_FFFF

  /** `tlm_dmi::init()`: null pointer, no access, the whole address range, zero latencies. */
  function InitDmi(): (d: Dmi)
    ensures !d.readAllowed && !d.writeAllowed && d.start == 0 && d.end == UINT64_MAX
  {
    Dmi(0, 0, UINT64_MAX, false, false, 0, 0)
  }
}
