/** PPTalker in the source's own form: requests and replies that update the
    connection in place. */
module Talker {
  import opened Text
  import opened Disk
  import opened BackendSpec
  import opened TalkerSpec
  import Spec = TalkerSpec

  class PPTalker {
    var peer: Session // the backend at the other end
    var inmsg: bool
    var broken: bool
    ghost var said: seq<Announced>
    ghost var sent: string

    ghost function State(): Spec.Talker
      reads this
    {
      Spec.Talker(peer, inmsg, broken, said, sent)
    }

    constructor (t: Spec.Talker)
      ensures State() == t
    {
      peer, inmsg, broken, said, sent := t.peer, t.inmsg, t.broken, t.said, t.sent;
    }

    // putLine and getLine; None is a session exception.
    method Exchange(line: string, f: Fault, tag: Word) returns (r: Option<Reply>)
      modifies this`peer, this`broken
      ensures (State(), r) == Spec.Exchange(old(State()), line, f, tag)
    {
      if broken {
        return None;
      }
      peer := Settle(peer, f.found, tag);
      if f.net.LostRequest? || f.net.Dropped? {
        broken := true;
        return None;
      }
      var o := Step(peer, line, f.e);
      peer := o.s;
      if f.net.LostReply? {
        broken := true;
        return None;
      }
      r := if o.reply.Quiet? || o.reply.Raised? then None else Some(o.reply);
    }

    // putLine alone.
    method Send(line: string, f: Fault, tag: Word) returns (ok: bool)
      modifies this`peer, this`broken
      ensures (State(), ok) == Spec.Send(old(State()), line, f, tag)
    {
      if broken {
        return !f.net.LostRequest?;
      }
      peer := Settle(peer, f.found, tag);
      if f.net.LostRequest? || f.net.Dropped? {
        broken := true;
        return f.net.Dropped?;
      }
      peer := Step(peer, line, f.e).s;
      ok := true;
    }

    method AddRecipient(mbox: Word, num: nat, f: Fault, tag: Word) returns (ok: bool)
      modifies this
      ensures (State(), ok) == Spec.AddRecipient(old(State()), mbox, num, f, tag)
    {
      var r := Exchange(RcptLine(mbox, NameOf(tag, num)), f, tag);
      ok := r == Some(Ok);
      if ok {
        said := said + [To(mbox, num)];
      }
    }

    method StartData(f: Fault, tag: Word) returns (ok: bool)
      modifies this
      ensures (State(), ok) == Spec.StartData(old(State()), f, tag)
    {
      var r := Exchange("put\n", f, tag);
      ok := r == Some(Ok);
      if ok {
        inmsg := true;
        sent := "";
      }
    }

    // A first line without startData starts the data phase itself.
    method MsgAddLine(line: string, f: Fault, tag: Word) returns (ok: bool)
      modifies this
      ensures (State(), ok) == Spec.AddLine(old(State()), line, f, tag)
    {
      if !inmsg {
        inmsg := true;
        ok := StartData(f, tag);
        if !ok {
          return;
        }
      }
      ok := Send(line, f, tag);
      if ok {
        sent := sent + line;
      }
    }

    method MsgDone(f: Fault, g: Fault, tag: Word) returns (ok: bool)
      modifies this
      ensures (State(), ok) == Spec.MsgDone(old(State()), f, g, tag)
    {
      var r := Exchange(".\n", f, tag);
      if r != Some(Ok) {
        return false;
      }
      r := Exchange("commit\n", g, tag);
      ok := r == Some(Ok);
    }

    method MsgRollback(f: Fault, g: Fault, tag: Word)
      modifies this
      ensures State() == Spec.MsgRollback(old(State()), f, g, tag)
    {
      var r := Exchange(".\n", f, tag);
      if r == Some(Ok) {
        r := Exchange("rollback\n", g, tag);
      }
    }
  }
}
