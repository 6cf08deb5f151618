/**
 Transport and core as one object graph, called the way the stack calls them: the receive callback hands
 a completed message up to the core before it returns, and the core's answer re-enters the transport
 that is still inside that callback.
 */
module NodeEngine {
  import opened Bytes
  import opened IsoTp
  import opened Wiring
  import opened CoreEngine
  import C = Core
  import opened Node

  class Stack {
    const link: IsoTpLink
    const server: UdsServer

    ghost predicate Repr()
      reads link, link.pending, link.rx
    {
      server.link == link && server.Repr() && server.tx != link.rx
    }

    ghost function View(): Node
      reads link, link.pending, link.rx, server
    {
      Node(link.View(), server.View())
    }

    /** The stack is where r says, has shown what r shows and handed the driver the frames of r. */
    ghost predicate Did(r: Result, was: Trail)
      reads link, link.pending, link.rx, server
    {
      && View() == r.node
      && server.log == was.log + r.obs && link.bus == was.bus + r.frames
    }

    constructor (link: IsoTpLink, server: UdsServer)
      requires server.link == link && server.Repr() && server.tx != link.rx
      ensures Repr() && this.link == link && this.server == server
    {
      this.link, this.server := link, server;
    }

    /** A single frame: the engine is idle before the message goes up. */
    method OnSingle(f: Frame, env: C.Env, canSend: int)
      requires Repr() && WellFormed(f) && Pci(f) == 0
      requires |env.seed| + 2 < 0x1_0000 && (env.outcome.Positive? ==> |env.outcome.sdu| < 0x1_0000)
      modifies link, link.pending, server, server.tx
      ensures Repr()
      ensures Did(Next(old(View()), server.cfg, Can(f, env, canSend)), old(server.Now()))
    {
      hide Pci, FfLength, Patch, ReceiveFf, ReceiveCf, ReceiveFc, C.Input, Then, Answer, C.ConfigOk, Tick, C.Apply;
      link.state := Idle;
      var sduLen := f[0] % 16;
      var offset := 1;
      if sduLen == 0 {
        if |f| < 2 {
          return;
        }
        sduLen := f[1];
        offset := 2;
        if sduLen == 0 {
          return;
        }
      }
      if sduLen > |f| - offset {
        return;
      }
      Upward(f[offset..offset + sduLen], env, canSend);
    }

    /** What a consecutive frame comes to for the node. */
    static lemma CfNext(n: Node, cfg: C.Config, f: Frame, env: C.Env, canSend: int)
      requires C.ConfigOk(cfg) && Valid(n.tp) && WellFormed(f) && Pci(f) == PCI_CF
      ensures var r := ReceiveCf(n.tp, f);
              && r.frames == []
              && Next(n, cfg, Can(f, env, canSend)) ==
                 if r.sdu.None? then Result(Node(r.tp, n.ctx), [], [])
                 else Answer(r.tp, C.Input(n.ctx, cfg, r.sdu.value, env), canSend)
    {
      hide Pci, FfLength, Patch, ReceiveSf, ReceiveFf, ReceiveFc, C.Input, Answer, C.ConfigOk, Valid;
      var r := ReceiveCf(n.tp, f);
      if r.sdu.Some? {
        var a := Answer(r.tp, C.Input(n.ctx, cfg, r.sdu.value, env), canSend);
        assert [] + a.frames == a.frames;
      }
    }

    /** A consecutive frame: when it completes the message, the engine is idle before the message goes up. */
    method OnConsecutive(f: Frame, env: C.Env, canSend: int)
      requires Repr() && WellFormed(f) && Pci(f) == PCI_CF
      requires |env.seed| + 2 < 0x1_0000 && (env.outcome.Positive? ==> |env.outcome.sdu| < 0x1_0000)
      modifies link, link.pending, link.rx, server, server.tx
      ensures Repr()
      ensures Did(Next(old(View()), server.cfg, Can(f, env, canSend)), old(server.Now()))
    {
      hide Pci, FfLength, Patch, C.Input, Then, Answer, C.ConfigOk, Next;
      CfNext(View(), server.cfg, f, env, canSend);
      if link.state != RxWaitCf {
        return;
      }
      if f[0] % 16 != link.sn {
        link.state := Idle;
        return;
      }
      link.Store(f);
      if link.bytesProcessed >= link.msgLen {
        link.state := Idle;
        Upward(link.rx[..link.msgLen], env, canSend);
      }
    }

    /** The call up to the core, from inside a reception. */
    method Upward(sdu: seq<byte>, env: C.Env, canSend: int)
      requires Repr()
      requires |env.seed| + 2 < 0x1_0000 && (env.outcome.Positive? ==> |env.outcome.sdu| < 0x1_0000)
      modifies link, link.pending, server, server.tx
      ensures Repr()
      ensures Did(Answer(old(link.View()), C.Input(old(server.View()), server.cfg, sdu, env), canSend),
                  old(server.Now()))
    {
      hide C.Input, SendAll, WireAll, C.ConfigOk, Valid;
      server.InputSdu(sdu, env, canSend);
    }

    /** uds_isotp_rx_callback: a whole reception, with everything that happens inside it. */
    method OnFrame(id: u32, f: Frame, env: C.Env, canSend: int)
      requires Repr() && WellFormed(f)
      requires |env.seed| + 2 < 0x1_0000 && (env.outcome.Positive? ==> |env.outcome.sdu| < 0x1_0000)
      modifies link, link.pending, link.rx, server, server.tx
      ensures Repr()
      ensures id == link.rxId ==> Did(Next(old(View()), server.cfg, Can(f, env, canSend)), old(server.Now()))
      ensures id != link.rxId ==> View() == old(View()) && server.Now() == old(server.Now())
    {
      if id != link.rxId {
        return;
      }
      var pci := Pci(f);
      if pci == 0 {
        OnSingle(f, env, canSend);
      } else if pci == PCI_FF {
        link.OnFirst(f);
      } else if pci == PCI_CF {
        OnConsecutive(f, env, canSend);
      } else if pci == PCI_FC {
        link.OnFlowControl(f);
      }
    }

    /** uds_tp_isotp_process. */
    method Poll(now: u32, canSend: int)
      requires Repr()
      modifies link, link.pending
      ensures Repr()
      ensures Did(Next(old(View()), server.cfg, Event.Poll(now, canSend)), old(server.Now()))
    {
      link.Process(now, canSend);
    }

    /** uds_process, and the calls of the application. */
    method Call(e: C.Event, canSend: int)
      requires Repr() && !e.Request?
      requires (e.Completed? ==> |e.sdu| < 0x1_0000) && (e.AsClient? ==> |e.data| < 0x1_0000)
      modifies link, link.pending, server, server.tx
      ensures Repr()
      ensures Did(Next(old(View()), server.cfg, Local(e, canSend)), old(server.Now()))
    {
      hide C.SendResponse, C.SendNrc, C.Process, C.ClientRequest, SendAll, WireAll, C.ConfigOk, Valid;
      match e {
        case Clock(now) => var _ := server.Tick(now, canSend);
        case Completed(sdu) => server.Reply(sdu, canSend);
        case Failed(sid, nrc) => server.Refuse(sid, nrc, canSend);
        case AsClient(sid, data, hasCb) => var _ := server.SendAsClient(sid, data, hasCb, canSend);
      }
    }
  }
}
