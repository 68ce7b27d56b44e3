/** The session object of a storage backend, in the source's own form: each
    command updates d_mode, d_failed and the delivery it owns. */
module Backend {
  import opened Text
  import opened Disk
  import opened DeliverySpec
  import opened BackendSpec
  import Delivery

  class PPListenSession {
    var mode: Mode
    var failed: bool
    const delivery: Delivery.Delivery

    function State(): Session
      reads this, delivery, delivery.fs
    {
      Session(mode, failed, delivery.State())
    }

    constructor (fs: Delivery.FileSystem, garbage: Option<Handle>)
      ensures delivery.fs == fs && fresh(delivery)
      ensures State() == Start(fs.disk, garbage)
    {
      mode, failed := UnAuth, false;
      delivery := new Delivery.Delivery(fs, garbage);
    }

    method RcptCommand(mbox: string, index: string, e: Env) returns (reply: Reply)
      modifies this, delivery, delivery.fs
      ensures Answer(State(), reply) == Rcpt(old(State()), mbox, index, e)
    {
      var ok := delivery.AddFile(mbox, index, e);
      if !ok {
        return Err;
      }
      mode := PreLimbo;
      reply := Ok;
    }

    method PutCommand() returns (reply: Reply)
      modifies this
      ensures State() == old(State()).(mode := InData, failed := false) && reply == Ok
    {
      failed := false;
      mode := InData;
      reply := Ok;
    }

    method PutLine(line: string, e: Env) returns (reply: Reply)
      requires mode.InData?
      modifies this, delivery, delivery.fs
      ensures Answer(State(), reply) == BackendSpec.PutLine(old(State()), line, e)
    {
      if IsTerminator(line) {
        mode := InLimbo;
        return Ok;
      }
      if !failed {
        var res := delivery.GiveLine(line, e);
        if res.None? {
          return Raised;
        }
        failed := !res.value;
      }
      reply := Quiet;
    }

    method CommitCommand(e: Env) returns (reply: Reply)
      modifies this, delivery, delivery.fs
      ensures Answer(State(), reply) == BackendSpec.CommitCommand(old(State()), e)
    {
      mode := Blank;
      if failed {
        failed := false;
        return Err;
      }
      var ok := delivery.Commit(e);
      reply := if ok then Ok else Err;
      failed := false;
      delivery.Reset();
    }

    method RollBackCommand() returns (reply: Reply)
      modifies this, delivery, delivery.fs
      ensures Answer(State(), reply) == BackendSpec.RollBackCommand(old(State()))
    {
      mode := Blank;
      delivery.RollBack();
      delivery.Reset();
      reply := Ok;
    }

    method BlankCommand(args: seq<string>, e: Env) returns (reply: Reply)
      requires args != []
      modifies this, delivery, delivery.fs
      ensures Answer(State(), reply) == BackendSpec.BlankCommand(old(State()), args, e)
    {
      reply := Err;
      if args[0] == "rcpt" && |args| == 3 {
        reply := RcptCommand(args[1], args[2], e);
      } else if |args| == 2 && args[0] == "ls" {
        if !e.dirErr {
          reply := Listing(ListMbox(delivery.fs.disk, args[1]));
        }
      } else if |args| == 2 && args[0] == "nuke" {
        delivery.fs.disk := UnlinkSet(delivery.fs.disk, set p | p in e.nuked && p.mbox == args[1]);
        if !e.unlinkErr {
          reply := Ok;
        }
      } else if |args| == 3 && args[0] == "del" {
        var ok := delivery.DelMessage(args[1], args[2], e);
        if ok {
          reply := Ok;
        }
      } else if |args| == 3 && args[0] == "get" {
        if !e.openErr && Path(args[1], Cur, args[2]) in delivery.fs.disk.names {
          reply := Message(Lookup(delivery.fs.disk, Path(args[1], Cur, args[2])).value);
        }
      } else if args[0] == "ping" {
        reply := Ok;
      } else if args[0] == "stat" {
        if !e.dirErr {
          reply := Ok;
        }
      } else if args[0] == "dir" {
        mode, reply := Dir, Ok;
      } else if args[0] == "readonly" || (args[0] == "readwrite" && !e.unlinkErr) {
        reply := Ok;
      }
    }

    // giveLine: one line from the connection, with the reply and whether the
    // peer asked to quit.
    method GiveLine(line: string, e: Env) returns (reply: Reply, quit: Quit)
      modifies this, delivery, delivery.fs
      ensures Outcome(State(), reply, quit) == Step(old(State()), line, e)
    {
      reply, quit := Err, NoQuit;
      if mode == InData {
        reply := PutLine(line, e);
        return;
      }
      if mode == Dir {
        mode, reply := Blank, Ok;
        return;
      }
      var stripped := Strip(line);
      var args := Tokens(stripped);
      if args == [] {
        return;
      }
      if args[0] == "quit" {
        reply, quit := Ok, PleaseQuit;
      } else if mode == UnAuth {
        if args[0] == "pass" && e.passOk {
          mode, reply := Blank, Ok;
        }
      } else if args[0] == "control" {
        var o := Control(State(), args, e);
        reply, quit := o.reply, o.quit;
      } else if mode == InLimbo {
        if stripped == "commit" {
          reply := CommitCommand(e);
        } else if stripped == "rollback" {
          reply := RollBackCommand();
        }
      } else if mode == PreLimbo {
        if args[0] == "rcpt" && |args| == 3 {
          reply := RcptCommand(args[1], args[2], e);
        } else if stripped == "put" {
          reply := PutCommand();
        }
      } else {
        reply := BlankCommand(args, e);
      }
    }
  }
}
