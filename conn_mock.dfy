/**
 * The in-memory test double of a connection (internal/conn/mock.go): the
 * same command table and dispatch rule as the real connection, writes
 * that go straight to a pipe, and a Destroy without a closed flag.
 */
module ConnMock {
  import opened Wrappers
  import opened Conn

  class MockConn {
    var cmd: Table
    /** The done channels handed out by GetDone, by number, in order. */
    var done: seq<nat>
    /** The done channels that have been sent `true`, in order. */
    var notified: seq<nat>
    /** Everything written to the pipe, in order. */
    var written: seq<Bytes>
    /** How many times the pipe has been closed. */
    var pipeCloses: nat
    var nextChan: nat

    ghost predicate Valid()
      reads this
    {
      forall i :: 0 <= i < |done| ==> done[i] < nextChan
    }

    /** NewMockConn: an empty table. */
    constructor ()
      ensures Valid() && cmd == map[] && done == [] && notified == [] && written == [] && pipeCloses == 0
    {
      cmd := map[];
      done := [];
      notified := [];
      written := [];
      pipeCloses := 0;
      nextChan := 0;
    }

    method AddCommand(group: string, strct: MessageStruct)
      modifies this`cmd
      ensures cmd == Merge(old(cmd), group, strct)
    {
      if group in cmd {
        var merged := MergeCommands(cmd[group], strct);
        cmd := cmd[group := merged];
      } else {
        cmd := cmd[group := strct];
      }
    }

    method ExecuteCommand(group: string, name: string) returns (r: Exec)
      ensures r == Execute(cmd, group, name)
    {
      if group in cmd {
        var g := cmd[group];
        if name in g {
          return Run(g[name]);
        }
        return Fail(ErrNoName);
      }
      return Fail(ErrNoGroup);
    }

    method RemoveCommandsByGroup(group: string)
      modifies this`cmd
      ensures cmd == old(cmd) - {group}
    {
      cmd := cmd - {group};
    }

    method RemoveCommandsByNames(group: string, names: seq<string>)
      modifies this`cmd
      ensures cmd == RemoveNames(old(cmd), group, names)
    {
      if group in cmd {
        var left := DeleteNames(cmd[group], names);
        cmd := cmd[group := left];
      }
    }

    /** WriteBytes: straight to the pipe, with no closed check. */
    method WriteBytes(bytes: Bytes)
      modifies this`written
      ensures written == old(written) + [bytes]
    {
      written := written + [bytes];
    }

    /** GetDone: one new subscriber, appended. */
    method GetDone() returns (ch: nat)
      requires Valid()
      modifies this`done, this`nextChan
      ensures Valid() && done == old(done) + [ch] && ch !in old(done)
    {
      ch := nextChan;
      nextChan := nextChan + 1;
      done := done + [ch];
    }

    /** Destroy: every subscriber is sent `true` on every call, and the pipe is closed again. */
    method Destroy()
      modifies this`notified, this`pipeCloses
      ensures notified == old(notified) + done
      ensures pipeCloses == old(pipeCloses) + 1
    {
      for i := 0 to |done|
        invariant notified == old(notified) + done[..i]
        invariant pipeCloses == old(pipeCloses)
      {
        notified := notified + [done[i]];
      }
      assert done[..|done|] == done;
      pipeCloses := pipeCloses + 1;
    }

    /** One message of the pipe reader: the callback it runs, by the real connection's rule. */
    method Receive(group: string, name: string) returns (ran: Option<Callback>)
      ensures ran == Dispatch(cmd, group, name)
    {
      ran := None;
      if |group| > 0 {
        if group in cmd {
          var strct := cmd[group];
          if |name| > 0 && name in strct {
            ran := Some(strct[name]);
          }
        }
      }
    }
  }
}
