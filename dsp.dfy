/**
 * The register-mapped target `DSP`: a file of five 32-bit registers
 * (command, operand1, operand2, status, result at offsets 0, 4, 8, 12 and
 * 16) behind a non-blocking data socket, and a single-outstanding-response
 * discipline built from the `response_in_progress` flag and the FIFO
 * `response_wait_list`.
 *
 * The initiator on the other side of the socket is the environment: what
 * its `nb_transport_bw` returns (sync value, and the phase and delay it
 * leaves behind) is a parameter, every backward call is appended to
 * `backward`, and every `peq_for_data.notify` is appended to `peq`.
 */
module DspTarget {
  import opened Tlm

  /** The register a byte offset selects: 0, 4, 8, 12, 16 select registers 0 .. 4. */
  function RegisterAt(adr: nat): (r: Option<nat>)
    ensures r.Some? <==> adr == 0 || adr == 4 || adr == 8 || adr == 12 || adr == 16
    ensures r.Some? ==> r.value < 5 && adr == 4 * r.value
  {
    if adr % 4 == 0 && adr <= 16 then Some(adr / 4) else None
  }

  /** The register file, the payload's data buffer and the status written (None: left as it was). */
  datatype AccessResult = AccessResult(regs: seq<Word>, data: seq<Byte>, status: Option<Status>)

  /**
   * What the `internal_ph` continuation does to the register file and the
   * payload: a read copies `len` bytes of the selected register into the
   * data buffer, a write copies `len` bytes of the buffer into it, any other
   * offset is an address error, and a command that is neither touches
   * nothing.
   */
  function Access(regs: seq<Word>, cmd: Command, adr: nat, data: seq<Byte>, len: nat): (r: AccessResult)
    requires |regs| == 5 && len <= 4 && len <= |data|
    ensures |r.regs| == 5 && |r.data| == |data|
  {
    if cmd == Ignore then AccessResult(regs, data, None)
    else match RegisterAt(adr)
      case None => AccessResult(regs, data, Some(AddressError))
      case Some(k) =>
        if cmd == Read then AccessResult(regs, CopyPrefix(data, regs[k], len), Some(Ok))
        else AccessResult(regs[k := CopyPrefix(regs[k], data, len)], data, Some(Ok))
  }

  /** A read or write at a register offset succeeds; at any other offset it is an address error and changes nothing. */
  lemma AccessStatus(regs: seq<Word>, cmd: Command, adr: nat, data: seq<Byte>, len: nat)
    requires |regs| == 5 && len <= 4 && len <= |data|
    requires cmd != Ignore
    ensures Access(regs, cmd, adr, data, len).status ==
              Some(if adr in {0, 4, 8, 12, 16} then Ok else AddressError)
    ensures !(adr in {0, 4, 8, 12, 16}) ==>
              Access(regs, cmd, adr, data, len).regs == regs && Access(regs, cmd, adr, data, len).data == data
  {
  }

  /** A command that is neither READ nor WRITE changes no register and leaves the status as it was. */
  lemma IgnoreChangesNothing(regs: seq<Word>, adr: nat, data: seq<Byte>, len: nat)
    requires |regs| == 5 && len <= 4 && len <= |data|
    ensures Access(regs, Ignore, adr, data, len) == AccessResult(regs, data, None)
  {
  }

  /** A read changes no register; it fills the first `len` bytes of the buffer from the register. */
  lemma ReadKeepsRegisters(regs: seq<Word>, adr: nat, data: seq<Byte>, len: nat)
    requires |regs| == 5 && len <= 4 && len <= |data|
    requires RegisterAt(adr).Some?
    ensures Access(regs, Read, adr, data, len).regs == regs
    ensures Access(regs, Read, adr, data, len).data[..len] == regs[adr / 4][..len]
    ensures Access(regs, Read, adr, data, len).data[len..] == data[len..]
  {
  }

  /** A write changes only the register it selects, and only its first `len` bytes. */
  lemma WriteIsolation(regs: seq<Word>, adr: nat, data: seq<Byte>, len: nat, j: nat)
    requires |regs| == 5 && len <= 4 && len <= |data| && j < 5
    requires RegisterAt(adr).Some?
    ensures var r := Access(regs, Write, adr, data, len).regs;
            (j != adr / 4 ==> r[j] == regs[j])
            && r[adr / 4][..len] == data[..len] && r[adr / 4][len..] == regs[adr / 4][len..]
  {
  }

  /** A 4-byte write followed by a 4-byte read at the same offset returns the value written. */
  lemma WriteThenRead(regs: seq<Word>, adr: nat, w: Word, buf: Word)
    requires |regs| == 5 && RegisterAt(adr).Some?
    ensures var after := Access(regs, Write, adr, w, 4);
            Access(after.regs, Read, adr, buf, 4).data == w
  {
    var after := Access(regs, Write, adr, w, 4);
    assert after.regs[adr / 4] == w;
  }

  class Dsp {
    var intCommand: Word             // `int_command`, offset 0
    var operand1: Word               // offset 4
    var operand2: Word               // offset 8
    var dspStatus: Word              // offset 12
    var result: Word                 // offset 16
    var responseWaitList: seq<Payload>
    var responseInProgress: bool
    var peq: seq<Event>              // entries given to `peq_for_data.notify`, oldest first
    var backward: seq<Event>         // calls of `data_socket->nb_transport_bw`, oldest first

    /** The register file, in offset order. */
    function Regs(): (r: seq<Word>)
      reads this
      ensures |r| == 5
    {
      [intCommand, operand1, operand2, dspStatus, result]
    }

    /**
     * `SC_CTOR(DSP)`: command TLM_IGNORE_COMMAND, the other registers 0 (the
     * status READY), an empty wait list. `response_in_progress` is left
     * uninitialised by the constructor; the model starts it false.
     */
    constructor ()
      ensures Regs() == [WordOf(CommandCode(Ignore)), WordOf(0), WordOf(0), WordOf(0), WordOf(0)]
      ensures responseWaitList == [] && !responseInProgress && peq == [] && backward == []
    {
      intCommand := WordOf(CommandCode(Ignore));
      operand1, operand2, dspStatus, result := WordOf(0), WordOf(0), WordOf(0), WordOf(0);
      responseWaitList := [];
      responseInProgress := false;
      peq, backward := [], [];
    }

    /** `nb_transport_fw`: only schedule the phase with the given delay, and accept. */
    method NbTransportFw(p: Payload, phase: Phase, delay: nat) returns (s: Sync)
      modifies this`peq
      ensures s == Accepted
      ensures peq == old(peq) + [Event(p, phase, delay)]
    {
      peq := peq + [Event(p, phase, delay)];
      s := Accepted;
    }

    /**
     * `peq_for_data_cb`. `ret`, `retPhase` and `retDelay` are what the
     * initiator's `nb_transport_bw` returns for the backward call this
     * callback makes, if any (END_REQ on BEGIN_REQ, BEGIN_RESP from the
     * continuation when no response is in progress).
     */
    method PeqForDataCb(p: Payload, phase: Phase, ret: Sync, retPhase: Phase, retDelay: nat)
      requires phase == Internal ==> p.dataLength <= 4 && p.dataLength <= |p.data|
      modifies this, p`data, p`status, p`refCount
      ensures phase == BeginReq ==>
                p.refCount == old(p.refCount) + 1
                && backward == old(backward) + [Event(p, EndReq, 1)]
                && peq == old(peq) + [Event(p, Internal, retDelay + 50)]
                && Regs() == old(Regs()) && responseWaitList == old(responseWaitList)
                && responseInProgress == old(responseInProgress)
      ensures phase == EndResp ==>
                p.refCount == old(p.refCount) - 1 && !responseInProgress && backward == old(backward)
                && Regs() == old(Regs())
                && (old(responseWaitList) == [] ==> responseWaitList == [] && peq == old(peq))
                && (old(responseWaitList) != [] ==>
                      responseWaitList == old(responseWaitList)[1..]
                      && peq == old(peq) + [Event(old(responseWaitList)[0], Internal, 50)])
      ensures phase == Internal ==> Continued(p, old(Regs()), old(p.command), old(p.address),
                                              old(p.data), old(p.dataLength), old(p.status),
                                              old(p.refCount), old(responseInProgress),
                                              old(responseWaitList), old(peq), old(backward),
                                              ret, retPhase, retDelay)
      ensures phase == EndReq || phase == BeginResp ==>
                Regs() == old(Regs()) && responseWaitList == old(responseWaitList)
                && responseInProgress == old(responseInProgress) && peq == old(peq)
                && backward == old(backward) && p.refCount == old(p.refCount)
      ensures phase != Internal ==> p.data == old(p.data) && p.status == old(p.status)
    {
      match phase
      case BeginReq =>
        p.refCount := p.refCount + 1;
        SendEndReq(p, retDelay);
      case EndResp =>
        p.refCount := p.refCount - 1;
        responseInProgress := false;
        if responseWaitList != [] {
          var head := responseWaitList[0];
          responseWaitList := responseWaitList[1..];
          peq := peq + [Event(head, Internal, 50)];
        }
      case Internal =>
        InternalPhase(p, ret, retPhase, retDelay);
      case _ =>
    }

    /**
     * The state after the `internal_ph` continuation for `p`: the register
     * access of `Access`, then either a tail append to the wait list (a
     * response is in progress) or `send_response`.
     */
    ghost predicate Continued(p: Payload, regs0: seq<Word>, cmd: Command, adr: nat, data0: seq<Byte>,
                              len: nat, status0: Status, ref0: int, busy0: bool, list0: seq<Payload>,
                              peq0: seq<Event>, backward0: seq<Event>,
                              ret: Sync, retPhase: Phase, retDelay: nat)
      reads this, p
      requires |regs0| == 5 && len <= 4 && len <= |data0|
    {
      var r := Access(regs0, cmd, adr, data0, len);
      && Regs() == r.regs && p.data == r.data
      && p.status == (if r.status.Some? then r.status.value else status0)
      && (busy0 ==>
            responseWaitList == list0 + [p] && responseInProgress
            && backward == backward0 && peq == peq0 && p.refCount == ref0)
      && (!busy0 ==>
            responseWaitList == list0 && backward == backward0 + [Event(p, BeginResp, 0)]
            && Responded(p, ref0, peq0, ret, retPhase, retDelay))
    }

    /** The flag, PEQ and reference count after `send_response` for `p`, given the initiator's answer. */
    ghost predicate Responded(p: Payload, ref0: int, peq0: seq<Event>, ret: Sync, retPhase: Phase, retDelay: nat)
      reads this, p
    {
      && (ret == Completed ==> !responseInProgress && p.refCount == ref0 - 1 && peq == peq0)
      && (ret == Updated ==> responseInProgress && p.refCount == ref0 && peq == peq0 + [Event(p, retPhase, retDelay)])
      && (ret == Accepted ==> responseInProgress && p.refCount == ref0 && peq == peq0)
    }

    /** The `internal_ph` branch of `peq_for_data_cb`. */
    method InternalPhase(p: Payload, ret: Sync, retPhase: Phase, retDelay: nat)
      requires p.dataLength <= 4 && p.dataLength <= |p.data|
      modifies this, p`data, p`status, p`refCount
      ensures Continued(p, old(Regs()), old(p.command), old(p.address), old(p.data), old(p.dataLength),
                        old(p.status), old(p.refCount), old(responseInProgress), old(responseWaitList),
                        old(peq), old(backward), ret, retPhase, retDelay)
    {
      AccessRegisters(p);
      if responseInProgress {
        // the list node code appends the packet at the tail of the list
        responseWaitList := responseWaitList + [p];
      } else {
        SendResponse(p, ret, retPhase, retDelay);
      }
    }

    /** The register decode of the `internal_ph` branch: the switch on command and offset. */
    method AccessRegisters(p: Payload)
      requires p.dataLength <= 4 && p.dataLength <= |p.data|
      modifies this`intCommand, this`operand1, this`operand2, this`dspStatus, this`result, p`data, p`status
      ensures var r := Access(old(Regs()), p.command, p.address, old(p.data), p.dataLength);
              Regs() == r.regs && p.data == r.data
              && p.status == (if r.status.Some? then r.status.value else old(p.status))
    {
      var cmd, adr, len := p.command, p.address, p.dataLength;
      if cmd == Read {
        if adr == 0 {
          p.data := CopyPrefix(p.data, intCommand, len);
          p.status := Ok;
        } else if adr == 4 {
          p.data := CopyPrefix(p.data, operand1, len);
          p.status := Ok;
        } else if adr == 8 {
          p.data := CopyPrefix(p.data, operand2, len);
          p.status := Ok;
        } else if adr == 12 {
          p.data := CopyPrefix(p.data, dspStatus, len);
          p.status := Ok;
        } else if adr == 16 {
          p.data := CopyPrefix(p.data, result, len);
          p.status := Ok;
        } else {
          p.status := AddressError;
        }
      } else if cmd == Write {
        if adr == 0 {
          intCommand := CopyPrefix(intCommand, p.data, len);
          p.status := Ok;
        } else if adr == 4 {
          operand1 := CopyPrefix(operand1, p.data, len);
          p.status := Ok;
        } else if adr == 8 {
          operand2 := CopyPrefix(operand2, p.data, len);
          p.status := Ok;
        } else if adr == 12 {
          dspStatus := CopyPrefix(dspStatus, p.data, len);
          p.status := Ok;
        } else if adr == 16 {
          result := CopyPrefix(result, p.data, len);
          p.status := Ok;
        } else {
          p.status := AddressError;
        }
      }
    }

    /** `send_end_req`: END_REQ on the backward path with 1 ns, then the continuation at the returned delay + 50 ns. */
    method SendEndReq(p: Payload, retDelay: nat)
      modifies this`backward, this`peq
      ensures backward == old(backward) + [Event(p, EndReq, 1)]
      ensures peq == old(peq) + [Event(p, Internal, retDelay + 50)]
    {
      backward := backward + [Event(p, EndReq, 1)];
      // the callee may have updated the delay to retDelay
      peq := peq + [Event(p, Internal, retDelay + 50)];
    }

    /**
     * `send_response`: mark a response in progress and send BEGIN_RESP with
     * zero delay. On TLM_COMPLETED the payload is released and the flag
     * cleared (the wait list is not drained); on TLM_UPDATED the returned
     * phase is re-queued.
     */
    method SendResponse(p: Payload, ret: Sync, retPhase: Phase, retDelay: nat)
      modifies this`responseInProgress, this`backward, this`peq, p`refCount
      ensures backward == old(backward) + [Event(p, BeginResp, 0)]
      ensures Responded(p, old(p.refCount), old(peq), ret, retPhase, retDelay)
    {
      responseInProgress := true;
      backward := backward + [Event(p, BeginResp, 0)];
      if ret == Updated {
        peq := peq + [Event(p, retPhase, retDelay)];
      } else if ret == Completed {
        p.refCount := p.refCount - 1;
        responseInProgress := false;
      }
    }
  }
}
