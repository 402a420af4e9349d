/**
 * The per-connection command registry of internal/conn: a map from a
 * command group to a map from a command name to a callback, the send
 * channel with its close-once flag, the done subscribers notified on
 * Destroy, the process-wide registry from client ID to connection, and the
 * rule by which an inbound message picks a callback. Callbacks are opaque
 * labels; running one is reported, not performed.
 */
module Conn {
  import opened Wrappers
  import ClientModel

  /** A registered callback, by label. */
  type Callback = string

  /** MessageStruct: command name to callback. */
  type MessageStruct = map<string, Callback>

  /** The command table: group to its commands. */
  type Table = map<string, MessageStruct>

  type Bytes = seq<bv8>

  datatype ExecError = ErrNoGroup | ErrNoName

  /** The outcome of ExecuteCommand: the callback that runs (its result is returned), or the error. */
  datatype Exec = Run(callback: Callback) | Fail(error: ExecError)

  // ---------------------------------------------------------------------
  // The command table

  /** The callback registered as group.name, if any. */
  function Lookup(cmd: Table, group: string, name: string): Option<Callback>
  {
    if group in cmd && name in cmd[group] then Some(cmd[group][name]) else None
  }

  /** AddCommand: the commands merge into an existing group, later ones winning; a new group is stored as given. */
  function Merge(cmd: Table, group: string, strct: MessageStruct): (r: Table)
    ensures r.Keys == cmd.Keys + {group}
    ensures group in cmd ==> r[group].Keys == cmd[group].Keys + strct.Keys
    ensures group !in cmd ==> r[group] == strct
  {
    if group in cmd then cmd[group := cmd[group] + strct] else cmd[group := strct]
  }

  /** RemoveCommandsByNames: the listed names leave the group; an absent group is left alone. */
  function RemoveNames(cmd: Table, group: string, names: seq<string>): (r: Table)
    ensures r.Keys == cmd.Keys
    ensures group in cmd ==> r[group].Keys == cmd[group].Keys - set n | n in names
  {
    if group in cmd then cmd[group := cmd[group] - set n | n in names] else cmd
  }

  /** ExecuteCommand on a table: a missing group, then a missing name, are errors; otherwise the callback runs. */
  function Execute(cmd: Table, group: string, name: string): (r: Exec)
    ensures r == Fail(ErrNoGroup) <==> group !in cmd
    ensures r == Fail(ErrNoName) <==> group in cmd && name !in cmd[group]
    ensures r.Run? <==> Lookup(cmd, group, name).Some?
    ensures r.Run? ==> Some(r.callback) == Lookup(cmd, group, name)
  {
    if group !in cmd then Fail(ErrNoGroup)
    else if name !in cmd[group] then Fail(ErrNoName)
    else Run(cmd[group][name])
  }

  /**
   * The read loop's dispatch rule: a message runs a callback only when its
   * group is non-empty and registered and its name is non-empty and
   * registered in that group.
   */
  function Dispatch(cmd: Table, group: string, name: string): (r: Option<Callback>)
    ensures r.Some? <==> |group| > 0 && |name| > 0 && Lookup(cmd, group, name).Some?
    ensures r.Some? ==> r == Lookup(cmd, group, name)
  {
    if |group| > 0 && group in cmd && |name| > 0 && name in cmd[group] then Some(cmd[group][name]) else None
  }

  /** The loop of AddCommand: each entry of strct copied into the group's commands. */
  method MergeCommands(into: MessageStruct, strct: MessageStruct) returns (r: MessageStruct)
    ensures r == into + strct
  {
    r := into;
    var rest := strct.Keys;
    while rest != {}
      invariant rest <= strct.Keys
      invariant r == into + (map k | k in strct.Keys - rest :: strct[k])
      decreases |rest|
    {
      var k :| k in rest;
      r := r[k := strct[k]];
      rest := rest - {k};
    }
    assert strct == map k | k in strct.Keys - rest :: strct[k];
  }

  /** The loop of RemoveCommandsByNames: each listed name deleted in turn. */
  method DeleteNames(m: MessageStruct, names: seq<string>) returns (r: MessageStruct)
    ensures r == m - set n | n in names
  {
    r := m;
    for i := 0 to |names|
      invariant r == m - set n | n in names[..i]
    {
      assert names[..i + 1] == names[..i] + [names[i]];
      r := r - {names[i]};
    }
    assert names[..|names|] == names;
  }

  // ---------------------------------------------------------------------
  // The send channel

  /** sendChannel: the outgoing queue and the flag that makes close happen once. */
  class SendChannel {
    var queue: seq<Bytes>
    var closed: bool
    /** How many times the underlying Go channel has been closed; a second close would panic. */
    var closeCalls: nat

    ghost predicate Valid()
      reads this
    {
      closeCalls == if closed then 1 else 0
    }

    constructor ()
      ensures Valid() && queue == [] && !closed
    {
      queue := [];
      closed := false;
      closeCalls := 0;
    }

    /** safesend: the bytes are queued only while the channel is open. */
    method SafeSend(bytes: Bytes)
      modifies this`queue
      ensures queue == old(queue) + (if closed then [] else [bytes])
    {
      var c := IsClosed();
      if !c {
        queue := queue + [bytes];
      }
    }

    /** close: the channel is closed the first time only, so it is closed exactly once however often this runs. */
    method Close()
      requires Valid()
      modifies this`closed, this`closeCalls
      ensures Valid() && closed && closeCalls == 1
      ensures old(closed) ==> closeCalls == old(closeCalls)
    {
      if !closed {
        closeCalls := closeCalls + 1;
        closed := true;
      }
    }

    method IsClosed() returns (c: bool)
      ensures c == closed
    {
      c := closed;
    }
  }

  // ---------------------------------------------------------------------
  // The connection

  /** connStruct: the command table, the send channel, the client, the done subscribers. */
  class Connection {
    var cmd: Table
    const send: SendChannel
    const client: ClientModel.Client
    /** The done channels handed out by GetDone, by number, in order. */
    var done: seq<nat>
    /** The done channels that have been sent `true`, in order. */
    var notified: seq<nat>
    /** Whether the network connection has been closed. */
    var netClosed: bool
    /** The number the next done channel gets. */
    var nextChan: nat

    ghost predicate Valid()
      reads this, send
    {
      send.Valid() && forall i :: 0 <= i < |done| ==> done[i] < nextChan
    }

    /** The connection NewConn builds: an empty table and an open send channel. */
    constructor (cl: ClientModel.Client)
      ensures Valid() && fresh(send) && client == cl && cmd == map[] && done == [] && notified == []
      ensures !netClosed && !send.closed && send.queue == []
    {
      cmd := map[];
      send := new SendChannel();
      client := cl;
      done := [];
      notified := [];
      netClosed := false;
      nextChan := 0;
    }

    method AddCommand(group: string, strct: MessageStruct)
      modifies this`cmd
      ensures cmd == Merge(old(cmd), group, strct)
    {
      if group in cmd {
        var merged := MergeCommands(cmd[group], strct);
        cmd := cmd[group := merged];
      } else {
        cmd := cmd[group := strct];
      }
    }

    method ExecuteCommand(group: string, name: string) returns (r: Exec)
      ensures r == Execute(cmd, group, name)
    {
      if group in cmd {
        var g := cmd[group];
        if name in g {
          return Run(g[name]);
        }
        return Fail(ErrNoName);
      }
      return Fail(ErrNoGroup);
    }

    method RemoveCommandsByGroup(group: string)
      modifies this`cmd
      ensures cmd == old(cmd) - {group}
    {
      cmd := cmd - {group};
    }

    method RemoveCommandsByNames(group: string, names: seq<string>)
      modifies this`cmd
      ensures cmd == RemoveNames(old(cmd), group, names)
    {
      if group in cmd {
        var left := DeleteNames(cmd[group], names);
        cmd := cmd[group := left];
      }
    }

    /**
     * Destroy: the network connection closes; the done subscribers are
     * each sent `true` only while the send channel is still open; then the
     * send channel is closed (once).
     */
    method Destroy()
      requires Valid()
      modifies this`netClosed, this`notified, send`closed, send`closeCalls
      ensures Valid() && netClosed && send.closed
      ensures notified == old(notified) + (if old(send.closed) then [] else done)
    {
      netClosed := true;
      var c := send.IsClosed();
      if !c {
        for i := 0 to |done|
          invariant notified == old(notified) + done[..i]
          invariant netClosed && send.closed == old(send.closed) && send.closeCalls == old(send.closeCalls)
        {
          notified := notified + [done[i]];
        }
        assert done[..|done|] == done;
      }
      send.Close();
    }

    /** GetDone: one new subscriber, appended. */
    method GetDone() returns (ch: nat)
      requires Valid()
      modifies this`done, this`nextChan
      ensures Valid() && done == old(done) + [ch] && ch !in old(done)
    {
      ch := nextChan;
      nextChan := nextChan + 1;
      done := done + [ch];
    }

    /** WriteBytes: through safesend, so nothing is queued once the channel is closed. */
    method WriteBytes(bytes: Bytes)
      modifies send`queue
      ensures send.queue == old(send.queue) + (if send.closed then [] else [bytes])
    {
      send.SafeSend(bytes);
    }

    /** One text message of the read loop: the callback it runs, if any. */
    method Receive(group: string, name: string) returns (ran: Option<Callback>)
      ensures ran == Dispatch(cmd, group, name)
    {
      ran := None;
      if |group| > 0 {
        if group in cmd {
          var strct := cmd[group];
          if |name| > 0 && name in strct {
            ran := Some(strct[name]);
          }
        }
      }
    }
  }

  // ---------------------------------------------------------------------
  // The process-wide registry

  /** The conns map: client ID to its live connection. */
  class Registry {
    var conns: map<string, Connection>

    constructor ()
      ensures conns == map[]
    {
      conns := map[];
    }

    /**
     * NewConn: a connection already registered for the same client ID is
     * given a new done subscriber, destroyed and dropped; the new connection
     * takes its place.
     */
    method NewConn(cl: ClientModel.Client) returns (c: Connection)
      requires cl.id in conns ==> conns[cl.id].Valid()
      modifies this, if cl.id in conns then {conns[cl.id], conns[cl.id].send} else {}
      ensures fresh(c) && fresh(c.send) && c.Valid() && c.client == cl && c.cmd == map[] && !c.send.closed
      ensures conns == old(conns)[cl.id := c]
      ensures cl.id in old(conns) ==>
        var o := old(conns)[cl.id];
        o.netClosed && o.send.closed && o.cmd == old(o.cmd) &&
        |o.done| == |old(o.done)| + 1 &&
        o.notified == old(o.notified) + (if old(o.send.closed) then [] else o.done)
    {
      c := new Connection(cl);
      if cl.id in conns {
        var o := conns[cl.id];
        var d := o.GetDone();
        o.Destroy();
        conns := conns - {cl.id};
      }
      conns := conns[cl.id := c];
    }
  }

  // ---------------------------------------------------------------------
  // Lemmas

  /** After AddCommand, group.name finds the new callback when strct names it, and the old lookup otherwise. */
  lemma LookupAfterMerge(cmd: Table, group: string, strct: MessageStruct, g: string, name: string)
    ensures Lookup(Merge(cmd, group, strct), g, name) ==
      if g == group && name in strct then Some(strct[name])
      else if g == group && group !in cmd then None
      else Lookup(cmd, g, name)
  {
  }

  /** Merging the same commands twice is merging them once. */
  lemma MergeIdempotent(cmd: Table, group: string, strct: MessageStruct)
    ensures Merge(Merge(cmd, group, strct), group, strct) == Merge(cmd, group, strct)
  {
    if group in cmd {
      assert (cmd[group] + strct) + strct == cmd[group] + strct;
    } else {
      assert strct + strct == strct;
    }
  }

  /** RemoveCommandsByGroup empties exactly that group's lookups. */
  lemma LookupAfterRemoveGroup(cmd: Table, group: string, g: string, name: string)
    ensures Lookup(cmd - {group}, g, name) == if g == group then None else Lookup(cmd, g, name)
  {
  }

  /** RemoveCommandsByNames forgets exactly the listed names of that group. */
  lemma LookupAfterRemoveNames(cmd: Table, group: string, names: seq<string>, g: string, name: string)
    ensures Lookup(RemoveNames(cmd, group, names), g, name) ==
      if g == group && name in names then None else Lookup(cmd, g, name)
  {
  }

  /** Removing names added by the same AddCommand into a new group leaves the group empty but present. */
  lemma AddThenRemoveNames(cmd: Table, group: string, strct: MessageStruct, names: seq<string>)
    requires group !in cmd && strct.Keys <= set n | n in names
    ensures RemoveNames(Merge(cmd, group, strct), group, names) == cmd[group := map[]]
  {
    var r := RemoveNames(Merge(cmd, group, strct), group, names);
    assert r[group].Keys == {};
  }

  /**
   * Dispatch is ExecuteCommand guarded by non-empty names: they agree on
   * every message with a non-empty group and name, and a command registered
   * under the empty name can be executed but never dispatched.
   */
  lemma DispatchIsGuardedExecute(cmd: Table, group: string, name: string)
    ensures |group| > 0 && |name| > 0 ==>
      (Dispatch(cmd, group, name).Some? <==> Execute(cmd, group, name).Run?)
    ensures |group| > 0 && |name| > 0 && Execute(cmd, group, name).Run? ==>
      Dispatch(cmd, group, name) == Some(Execute(cmd, group, name).callback)
    ensures |group| == 0 || |name| == 0 ==> Dispatch(cmd, group, name).None?
  {
  }
}
