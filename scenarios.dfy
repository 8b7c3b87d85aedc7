/**
 * Client code in the manner of the components' callers: each method drives
 * the model through one base-protocol exchange and asserts what the
 * components' contracts alone guarantee.
 */
module Scenarios {
  import opened Tlm
  import MemManager
  import CoreInitiator
  import DspTarget
  import Platform

  /** Freeing two payloads and allocating twice returns them last-freed first; nodes are reused. */
  method PoolReuseScenario(a: Payload, b: Payload)
  {
    var pool := new MemManager.Pool();
    pool.Free(a);
    pool.Free(b);
    assert pool.View().nodes == 2;
    var x := pool.Allocate();
    var y := pool.Allocate();
    assert x == b && y == a;
    pool.Free(y);
    assert pool.View().nodes == 2;
    var z := pool.Allocate();
    assert z == a;
    var w := pool.Allocate();
    assert fresh(w);
  }

  /**
   * A payload returned to the initiator's pool is handed out by the next
   * `NewTransaction`; the one after that finds the free list empty and
   * allocates a new payload.
   */
  method ReuseTwiceScenario()
  {
    var core := new CoreInitiator.Core();
    var a := new Payload();
    core.pool.Free(a);
    var t1 := core.NewTransaction(Write, 0, 0);
    assert t1 == a && core.pool.nodeTrans == [a];
    var t2 := core.NewTransaction(Read, 4, 1);
    assert fresh(t2) && t2 != a;
  }

  /** A second request waits until END_REQ of the first has been delivered. */
  method ExclusionScenario()
  {
    var core := new CoreInitiator.Core();
    var t1 := core.NewTransaction(Write, 0, 0);
    var issued := core.Issue(t1, Accepted, BeginReq, 0, Incomplete);
    assert issued && core.requestInProgress == t1;
    var t2 := core.NewTransaction(Write, 4, 1);
    issued := core.Issue(t2, Accepted, BeginReq, 0, Incomplete);
    assert !issued && core.requestInProgress == t1;
    core.PeqCb(t1, EndReq);
    assert core.requestInProgress == null && !core.fatal;
    issued := core.Issue(t2, Accepted, BeginReq, 0, Incomplete);
    assert issued && core.requestInProgress == t2;
  }

  /** A target that completes a request at once with OK causes no error report. */
  method CompletedAtOnceScenario()
  {
    var core := new CoreInitiator.Core();
    var t := core.NewTransaction(Write, 0, 0);
    var issued := core.Issue(t, Completed, BeginReq, 0, Ok);
    assert issued && core.requestInProgress == null && core.errorReports == 0;
  }

  /**
   * A read of register offset 20 is an address error; a second request
   * whose continuation runs while the first response is in flight is
   * queued and rescheduled when END_RESP of the first arrives.
   */
  method DspQueueScenario(a: Payload, b: Payload)
    requires a != b
    modifies a, b
  {
    a.command, a.address, a.data, a.dataLength := Read, 20, [0, 0, 0, 0], 4;
    b.command, b.address, b.data, b.dataLength := Write, 4, [7, 0, 0, 0], 4;
    var dsp := new DspTarget.Dsp();
    dsp.PeqForDataCb(a, Internal, Accepted, BeginResp, 0);
    assert a.status == AddressError;
    assert dsp.responseInProgress && dsp.backward == [Event(a, BeginResp, 0)];
    dsp.PeqForDataCb(b, Internal, Accepted, BeginResp, 0);
    assert dsp.responseWaitList == [b] && dsp.backward == [Event(a, BeginResp, 0)];
    assert CopyPrefix(WordOf(0), [7, 0, 0, 0], 4) == [7, 0, 0, 0];
    assert DspTarget.RegisterAt(4) == Some(1);
    assert dsp.Regs()[1] == [7, 0, 0, 0];
    dsp.PeqForDataCb(a, EndResp, Accepted, BeginResp, 0);
    assert dsp.responseWaitList == [] && !dsp.responseInProgress;
    assert dsp.peq == [Event(b, Internal, 50)];
    dsp.PeqForDataCb(b, Internal, Accepted, BeginResp, 0);
    assert dsp.backward == [Event(a, BeginResp, 0), Event(b, BeginResp, 0)];
  }

  /** Writing 5 to global address 0x10 reaches word 4 of target 0 and completes with OK. */
  method RouterWriteScenario(router: Platform.Router)
    requires router.Valid()
    modifies router.targets[0].mem
  {
    var p := new Payload();
    p.command, p.address, p.data, p.dataLength, p.streamingWidth := Write, 0x10, WordOf(5), 4, 4;
    Platform.RouteCompose(0, 0x10);
    assert Platform.Validate(0x10, false, 4, 4) == Ok;
    var before := router.targets[0].mem[4];
    var delay := router.BTransport(p, 10);
    assert p.status == Ok && p.address == 0x10 && delay == 0;
    CopyWhole(before, WordOf(5));
    assert router.targets[0].mem[..][4] == WordOf(5);
  }

  /** A word written through `b_transport` is read back through the DMI pointer granted after it. */
  method DmiReadBackScenario(init: Platform.Initiator)
    requires init.Valid() && !init.dmiPtrValid
    modifies init, init.trans, init.router.targets[1].mem
  {
    init.data := WordOf(9);
    Platform.RouteCompose(1, 4);
    var o := init.Step(0x104, Write);
    assert o.Transported? && init.dmiPtrValid;
    ghost var written := init.router.targets[1].mem[..];
    assert written == Platform.Serve(old(init.router.targets[1].mem[..]), Write, 4, WordOf(9), 4, 4, false).mem;
    init.data := WordOf(0);
    o := init.Step(0x104, Read);
    assert o.DmiRead?;
    Platform.TransportWriteThenDmiRead(old(init.router.targets[1].mem[..]), 4, WordOf(9));
    assert init.data == WordOf(9);
  }

  /** After an invalidation the next access goes through `b_transport`, never the old pointer. */
  method InvalidationScenario(init: Platform.Initiator)
    requires init.Valid() && !init.dmiPtrValid
    modifies init, init.trans, set m | m in init.router.targets :: m.mem
  {
    var o := init.Step(0x104, Read);
    assert o.Transported? && init.dmiPtrValid;
    Platform.RouteCompose(1, 4);
    Platform.RouteCompose(1, 8);
    o := init.Step(0x108, Read);
    assert o.DmiRead? && o.host == init.router.targets[1].base + 8;
    init.InvalidateDirectMemPtr(0, 0xFF);
    o := init.Step(0x108, Read);
    assert o.Transported?;
  }
}
