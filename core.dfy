/**
 * The initiator `Core`: one `request_in_progress` slot enforcing the
 * BEGIN_REQ/END_REQ exclusion rule of the base protocol (IEEE 1666-2011,
 * clause 14.2), the backward path `nb_transport_bw`, the PEQ callback
 * `peq_cb` and the completion check `check_transaction`.
 *
 * The target behind the socket and the kernel are the environment: what a
 * forward call returns (its sync value and the phase and delay it leaves
 * behind) is a parameter, every forward call made is appended to
 * `forward`, and every `m_peq.notify` is appended to `peq`. The PEQ
 * delivering an entry is a call of `PeqCb`.
 */
module CoreInitiator {
  import opened Tlm
  import MemManager

  class Core {
    var requestInProgress: Payload?
    var peq: seq<Event>              // entries given to `m_peq.notify`, oldest first
    var forward: seq<Event>          // calls of `socket->nb_transport_fw`, oldest first
    var endRequestEvents: nat        // notifications of `end_request_event`
    var errorReports: nat            // `SC_REPORT_ERROR` from `check_transaction`
    var fatal: bool                  // `SC_REPORT_FATAL` was raised
    const data: array<Word>          // `int data[16]`
    const pool: MemManager.Pool      // `m_mm`

    ghost predicate Valid()
      reads this, pool
    {
      pool.Valid() && data.Length == 16
    }

    /** `SC_CTOR(Core)`: no request in progress, `data[i] == i`, an empty pool. */
    constructor ()
      ensures Valid() && fresh(pool) && fresh(data)
      ensures requestInProgress == null && peq == [] && forward == []
      ensures endRequestEvents == 0 && errorReports == 0 && !fatal
      ensures pool.View() == MemManager.PoolView([], 0)
      ensures forall i :: 0 <= i < 16 ==> ValueOf(data[i]) == i
    {
      requestInProgress := null;
      peq, forward := [], [];
      endRequestEvents, errorReports, fatal := 0, 0, false;
      var d := new Word[16];
      var i := 0;
      while i < 16
        invariant 0 <= i <= 16
        invariant forall j :: 0 <= j < i ==> ValueOf(d[j]) == j
      {
        d[i] := WordOf(i);
        i := i + 1;
      }
      data := d;
      pool := new MemManager.Pool();
    }

    /**
     * The first half of one step of `thread_process`: take a payload from the
     * pool, acquire it and set every attribute the base protocol requires
     * (a reused payload is not reset by the pool, so all of them are set here).
     * The data pointer is `&data[k]`.
     */
    method NewTransaction(cmd: Command, adr: nat, k: nat) returns (t: Payload)
      requires Valid() && k < 16
      modifies pool, pool.nodeTrans
      ensures Valid()
      ensures pool.View() == MemManager.AllocateView(old(pool.View())).1
      ensures pool.nodeTrans == old(pool.nodeTrans)
      ensures MemManager.AllocateView(old(pool.View())).0.Some? ==>
                t == MemManager.AllocateView(old(pool.View())).0.value && t.refCount == old(t.refCount) + 1
      ensures MemManager.AllocateView(old(pool.View())).0.None? ==> fresh(t) && t.refCount == 1
      ensures forall q :: q in old(pool.nodeTrans) && q != t ==> unchanged(q)
      ensures t.command == cmd && t.address == adr && t.data == data[k]
      ensures t.dataLength == 4 && t.streamingWidth == 4 && !t.byteEnable
      ensures !t.dmiAllowed && t.status == Incomplete
    {
      ghost var before := MemManager.AllocateView(pool.View());
      ghost var trans := pool.nodeTrans;
      t := pool.Allocate();
      assert before.0.Some? ==> t == before.0.value && t in trans;
      t.Acquire();
      t.SetWordRequest(cmd, adr, data[k]);
    }

    /**
     * The second half of one step of `thread_process`: apply the exclusion
     * rule and send BEGIN_REQ with a 1 ns delay. When a request is still in
     * progress nothing is sent (`issued` is false): the thread waits for
     * `end_request_event` and issues again afterwards. `ret`, `retPhase`,
     * `retDelay` and `retStatus` are what the target's `nb_transport_fw`
     * returns and leaves in the phase and delay arguments and in the
     * payload's response status.
     */
    method Issue(t: Payload, ret: Sync, retPhase: Phase, retDelay: nat, retStatus: Status)
      returns (issued: bool)
      requires Valid()
      modifies this, t`refCount, t`status
      ensures Valid()
      ensures issued <==> old(requestInProgress) == null
      ensures !issued ==> (requestInProgress == old(requestInProgress) && peq == old(peq)
                           && forward == old(forward) && errorReports == old(errorReports)
                           && t.refCount == old(t.refCount))
      ensures issued ==> forward == old(forward) + [Event(t, BeginReq, 1)]
      ensures issued && ret == Updated ==> peq == old(peq) + [Event(t, retPhase, retDelay)]
      ensures !(issued && ret == Updated) ==> peq == old(peq)
      ensures issued && ret == Completed ==>
                requestInProgress == null && t.refCount == old(t.refCount) - 1
                && errorReports == old(errorReports) + (if IsResponseError(retStatus) then 1 else 0)
      ensures issued && ret != Completed ==>
                requestInProgress == t && t.refCount == old(t.refCount) && errorReports == old(errorReports)
      ensures t.status == (if issued then retStatus else old(t.status))
      ensures t.address == old(t.address) && t.command == old(t.command) && t.data == old(t.data)
      ensures endRequestEvents == old(endRequestEvents) && fatal == old(fatal)
    {
      if requestInProgress != null {
        issued := false;
        return;
      }
      issued := true;
      requestInProgress := t;
      forward := forward + [Event(t, BeginReq, 1)];
      t.status := retStatus;   // written by the target during the call
      if ret == Updated {
        // the timing annotation must be honoured
        peq := peq + [Event(t, retPhase, retDelay)];
      } else if ret == Completed {
        requestInProgress := null;
        CheckTransaction(t);
      }
    }

    /** `nb_transport_bw`: only enqueue the phase on the PEQ, and accept. */
    method NbTransportBw(t: Payload, phase: Phase, delay: nat) returns (s: Sync)
      modifies this`peq
      ensures s == Accepted
      ensures peq == old(peq) + [Event(t, phase, delay)]
    {
      peq := peq + [Event(t, phase, delay)];
      s := Accepted;
    }

    /**
     * `peq_cb`: END_REQ, or BEGIN_RESP for the outstanding request, ends the
     * request phase; BEGIN_REQ and END_RESP are fatal; on BEGIN_RESP the
     * transaction is checked and released and END_RESP is sent forward with
     * 1 ns, its return value ignored.
     */
    method PeqCb(t: Payload, phase: Phase)
      requires Valid()
      modifies this, t`refCount
      ensures Valid()
      ensures var ends := phase == EndReq || (phase == BeginResp && t == old(requestInProgress));
              requestInProgress == (if ends then null else old(requestInProgress))
              && endRequestEvents == old(endRequestEvents) + (if ends then 1 else 0)
      ensures fatal == (old(fatal) || phase == BeginReq || phase == EndResp)
      ensures phase == BeginResp ==>
                t.refCount == old(t.refCount) - 1
                && errorReports == old(errorReports) + (if IsResponseError(t.status) then 1 else 0)
                && forward == old(forward) + [Event(t, EndResp, 1)]
      ensures phase != BeginResp ==>
                t.refCount == old(t.refCount) && errorReports == old(errorReports) && forward == old(forward)
      ensures peq == old(peq) && t.status == old(t.status)
    {
      if phase == EndReq || (t == requestInProgress && phase == BeginResp) {
        requestInProgress := null;
        endRequestEvents := endRequestEvents + 1;
      } else if phase == BeginReq || phase == EndResp {
        fatal := true;
      }
      if phase == BeginResp {
        CheckTransaction(t);
        forward := forward + [Event(t, EndResp, 1)];
      }
    }

    /** `check_transaction`: report a response error, then release the payload exactly once. */
    method CheckTransaction(t: Payload)
      modifies this`errorReports, t`refCount
      ensures errorReports == old(errorReports) + (if IsResponseError(t.status) then 1 else 0)
      ensures t.refCount == old(t.refCount) - 1
    {
      if IsResponseError(t.status) {
        errorReports := errorReports + 1;
      }
      t.refCount := t.refCount - 1;
    }
  }
}
