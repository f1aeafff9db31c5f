/**
 The inactivity bookkeeping the workspace server runs once a minute
 (`run_task` in lapdev-ws/src/server.rs).

 The server collects the local ports of established TCP sockets, calls a
 running workspace active when its SSH or IDE port is among them, and tells
 the conductor to change the workspace's `last_inactivity` only when the
 stored value disagrees with what it observed: an active workspace has it
 cleared, an idle one without it gets the current time.
 */
module Activity {
  import opened Wrappers

  /** A workspace's port as the conductor stores it (a 32-bit signed integer). */
  type Port = int

  /** The local port of a socket (16 bits). */
  type LocalPort = p: int | 0 <= p < 0x1_0000

  /** An instant; the model only compares and stores it. */
  type Timestamp = int

  type WorkspaceId = int

  /** The states a TCP socket can be reported in. */
  datatype TcpState =
    | Closed | Listen | SynSent | SynReceived | Established | FinWait1 | FinWait2
    | CloseWait | Closing | LastAck | TimeWait | DeleteTcb | Unknown

  /** One socket of the host, as the socket enumeration reports it. */
  datatype SocketInfo =
    | Tcp(localPort: LocalPort, state: TcpState)
    | Udp(localPort: LocalPort)

  predicate IsEstablishedTcp(s: SocketInfo) {
    s.Tcp? && s.state == Established
  }

  /**
   The active ports: the local ports of the established TCP sockets. The
   server collects them into a map keyed by port, so only membership matters.
   */
  function EstablishedPorts(sockets: seq<SocketInfo>): (ports: set<Port>)
    ensures forall p :: p in ports ==> 0 <= p < 0x1_0000
  {
    if |sockets| == 0 then {}
    else
      (if IsEstablishedTcp(sockets[0]) then {sockets[0].localPort} else {})
        + EstablishedPorts(sockets[1..])
  }

  /**
   A port is active exactly when some established TCP socket has it as its
   local port; sockets in any other state, and UDP sockets, contribute nothing.
   */
  lemma {:induction false} EstablishedPortsMeaning(sockets: seq<SocketInfo>, p: Port)
    ensures p in EstablishedPorts(sockets) <==>
      exists i :: 0 <= i < |sockets| && IsEstablishedTcp(sockets[i]) && sockets[i].localPort == p
  {
    if |sockets| > 0 {
      var rest := sockets[1..];
      EstablishedPortsMeaning(rest, p);
      assert forall i :: 1 <= i < |sockets| ==> sockets[i] == rest[i - 1];
      if p in EstablishedPorts(rest) {
        var j :| 0 <= j < |rest| && IsEstablishedTcp(rest[j]) && rest[j].localPort == p;
        assert sockets[j + 1] == rest[j];
      }
    }
  }

  /** A running workspace as the conductor reports it. */
  datatype Workspace = Workspace(
    id: WorkspaceId,
    sshPort: Option<Port>,
    idePort: Option<Port>,
    lastInactivity: Option<Timestamp>)

  /** An optional port counts when it is present and active. */
  predicate Listened(port: Option<Port>, active: set<Port>) {
    port.Some? && port.value in active
  }

  /** A workspace is active when its SSH port or its IDE port is active. */
  predicate IsActive(w: Workspace, active: set<Port>)
    ensures IsActive(w, active) <==> exists p :: p in active && (w.sshPort == Some(p) || w.idePort == Some(p))
  {
    var r := Listened(w.sshPort, active) || Listened(w.idePort, active);
    assert Listened(w.sshPort, active) ==> var p := w.sshPort.value; p in active && w.sshPort == Some(p);
    assert Listened(w.idePort, active) ==> var p := w.idePort.value; p in active && w.idePort == Some(p);
    r
  }

  /** The record agrees with the observation: `last_inactivity` is unset exactly when the workspace is active. */
  predicate Settled(w: Workspace, active: set<Port>) {
    w.lastInactivity.None? <==> IsActive(w, active)
  }

  /** Activity measured directly on the sockets: some established TCP socket sits on one of the workspace's ports. */
  lemma ActiveOnSockets(w: Workspace, sockets: seq<SocketInfo>)
    ensures IsActive(w, EstablishedPorts(sockets)) <==>
      exists i :: 0 <= i < |sockets| && IsEstablishedTcp(sockets[i])
        && (Some(sockets[i].localPort) == w.sshPort || Some(sockets[i].localPort) == w.idePort)
  {
    if w.sshPort.Some? {
      EstablishedPortsMeaning(sockets, w.sshPort.value);
    }
    if w.idePort.Some? {
      EstablishedPortsMeaning(sockets, w.idePort.value);
    }
  }

  /** A request to the conductor to set a workspace's `last_inactivity`. */
  datatype Update = Update(workspace: WorkspaceId, lastInactivity: Option<Timestamp>)

  /**
   The update, if any, issued for one workspace observed at time `now`:
   an active workspace with `last_inactivity` set has it cleared, an idle one
   without it has it set to `now`, and a settled record is left alone.
   */
  function InactivityUpdate(w: Workspace, active: set<Port>, now: Timestamp): (u: Option<Update>)
    ensures u.None? <==> Settled(w, active)
    ensures u.Some? ==> u.value.workspace == w.id
    ensures u.Some? ==> (u.value.lastInactivity.None? <==> IsActive(w, active))
    ensures u.Some? && u.value.lastInactivity.Some? ==> u.value.lastInactivity.value == now
  {
    if IsActive(w, active) then
      if w.lastInactivity.Some? then Some(Update(w.id, None)) else None
    else
      if w.lastInactivity.None? then Some(Update(w.id, Some(now))) else None
  }

  /** The workspace record once the conductor has applied an update meant for it. */
  function Apply(w: Workspace, u: Option<Update>): (w': Workspace)
    ensures w'.id == w.id && w'.sshPort == w.sshPort && w'.idePort == w.idePort
    ensures u.None? || u.value.workspace != w.id ==> w' == w
    ensures u.Some? && u.value.workspace == w.id ==> w'.lastInactivity == u.value.lastInactivity
  {
    if u.Some? && u.value.workspace == w.id then w.(lastInactivity := u.value.lastInactivity) else w
  }

  /**
   One round settles a workspace, and a settled workspace draws no update:
   re-applying the rule after its update, with the same active ports and at
   any later time, issues nothing.
   */
  lemma UpdateSettles(w: Workspace, active: set<Port>, now: Timestamp, later: Timestamp)
    ensures Settled(Apply(w, InactivityUpdate(w, active, now)), active)
    ensures InactivityUpdate(Apply(w, InactivityUpdate(w, active, now)), active, later).None?
  {
  }

  /** An idle workspace keeps the moment it was first seen idle: later rounds do not move it. */
  lemma IdleSinceIsKept(w: Workspace, active: set<Port>, now: Timestamp, later: Timestamp)
    requires !IsActive(w, active)
    ensures var w1 := Apply(w, InactivityUpdate(w, active, now));
      Apply(w1, InactivityUpdate(w1, active, later)).lastInactivity
        == (if w.lastInactivity.Some? then w.lastInactivity else Some(now))
  {
  }

  /**
   One pass over the running workspaces: the updates issued, in workspace
   order. The current time is read afresh for each workspace, so `clock[i]`
   is the time the pass reads while it visits `workspaces[i]`.
   */
  function RunTask(workspaces: seq<Workspace>, active: set<Port>, clock: seq<Timestamp>): (us: seq<Update>)
    requires |clock| == |workspaces|
    ensures |us| <= |workspaces|
    ensures |us| == 0 <==> forall i :: 0 <= i < |workspaces| ==> Settled(workspaces[i], active)
    ensures forall k :: 0 <= k < |us| ==>
      exists i :: 0 <= i < |workspaces| && InactivityUpdate(workspaces[i], active, clock[i]) == Some(us[k])
    ensures |workspaces| == 1 ==>
      us == (if Settled(workspaces[0], active) then []
             else [InactivityUpdate(workspaces[0], active, clock[0]).value])
  {
    if |workspaces| == 0 then []
    else
      var rest := RunTask(workspaces[1..], active, clock[1..]);
      assert forall i :: 1 <= i < |workspaces| ==> workspaces[i] == workspaces[1..][i - 1] && clock[i] == clock[1..][i - 1];
      match InactivityUpdate(workspaces[0], active, clock[0])
      case None => rest
      case Some(u) =>
        assert forall k :: 1 <= k < |[u] + rest| ==> ([u] + rest)[k] == rest[k - 1];
        [u] + rest
  }

  /** A pass works workspace by workspace: a pass over two runs of workspaces issues their updates one after the other. */
  lemma {:induction false} RunTaskAppend(a: seq<Workspace>, ca: seq<Timestamp>, b: seq<Workspace>, cb: seq<Timestamp>, active: set<Port>)
    requires |ca| == |a| && |cb| == |b|
    ensures RunTask(a + b, active, ca + cb) == RunTask(a, active, ca) + RunTask(b, active, cb)
  {
    if |a| == 0 {
      assert a + b == b;
      assert ca + cb == cb;
    } else {
      assert (a + b)[0] == a[0] && (ca + cb)[0] == ca[0];
      assert (a + b)[1..] == a[1..] + b;
      assert (ca + cb)[1..] == ca[1..] + cb;
      RunTaskAppend(a[1..], ca[1..], b, cb, active);
    }
  }

  /** The workspace record once the conductor has applied a sequence of updates, in order. */
  function ApplyUpdates(w: Workspace, us: seq<Update>): (w': Workspace)
    ensures w'.id == w.id && w'.sshPort == w.sshPort && w'.idePort == w.idePort
    ensures (forall k :: 0 <= k < |us| ==> us[k].workspace != w.id) ==> w' == w
    decreases |us|
  {
    if |us| == 0 then w
    else
      assert forall k :: 1 <= k < |us| ==> us[k] == us[1..][k - 1];
      ApplyUpdates(Apply(w, Some(us[0])), us[1..])
  }

  /** Applying two runs of updates is applying the first, then the second. */
  lemma {:induction false} ApplyUpdatesAppend(w: Workspace, a: seq<Update>, b: seq<Update>)
    ensures ApplyUpdates(w, a + b) == ApplyUpdates(ApplyUpdates(w, a), b)
    decreases |a|
  {
    if |a| == 0 {
      assert a + b == b;
    } else {
      assert (a + b)[0] == a[0];
      assert (a + b)[1..] == a[1..] + b;
      ApplyUpdatesAppend(Apply(w, Some(a[0])), a[1..], b);
    }
  }

  /** Every workspace record once the conductor has applied all of `us`. */
  function ApplyAll(workspaces: seq<Workspace>, us: seq<Update>): (ws': seq<Workspace>)
    ensures |ws'| == |workspaces|
    ensures forall i :: 0 <= i < |ws'| ==> ws'[i].id == workspaces[i].id
  {
    seq(|workspaces|, i requires 0 <= i < |workspaces| => ApplyUpdates(workspaces[i], us))
  }

  /** The conductor's running workspaces have distinct ids. */
  predicate IdsDistinct(workspaces: seq<Workspace>) {
    forall i, j :: 0 <= i < |workspaces| && 0 <= j < |workspaces| && i != j ==> workspaces[i].id != workspaces[j].id
  }

  /** Reference: every workspace after its own update, and no other, has been applied. */
  function SettleAll(workspaces: seq<Workspace>, active: set<Port>, clock: seq<Timestamp>): (ws': seq<Workspace>)
    requires |clock| == |workspaces|
    ensures |ws'| == |workspaces|
    ensures forall i :: 0 <= i < |ws'| ==> Settled(ws'[i], active)
  {
    seq(|workspaces|, i requires 0 <= i < |workspaces| =>
      UpdateSettles(workspaces[i], active, clock[i], clock[i]);
      Apply(workspaces[i], InactivityUpdate(workspaces[i], active, clock[i])))
  }

  /** No update of a pass over `ws` targets a workspace whose id is not among them. */
  lemma RunTaskTargetsOthersNot(ws: seq<Workspace>, active: set<Port>, clock: seq<Timestamp>, w: Workspace)
    requires |clock| == |ws|
    requires forall j :: 0 <= j < |ws| ==> ws[j].id != w.id
    ensures forall k :: 0 <= k < |RunTask(ws, active, clock)| ==> RunTask(ws, active, clock)[k].workspace != w.id
  {
    var us := RunTask(ws, active, clock);
    forall k | 0 <= k < |us|
      ensures us[k].workspace != w.id
    {
      var j :| 0 <= j < |ws| && InactivityUpdate(ws[j], active, clock[j]) == Some(us[k]);
    }
  }

  /**
   Applying the updates a pass issues leaves one workspace exactly as its own
   update alone would: with distinct ids, no other update reaches it.
   */
  lemma RunTaskAppliesOwnUpdate(ws: seq<Workspace>, active: set<Port>, clock: seq<Timestamp>, i: nat)
    requires |clock| == |ws| && i < |ws|
    requires IdsDistinct(ws)
    ensures ApplyUpdates(ws[i], RunTask(ws, active, clock)) == Apply(ws[i], InactivityUpdate(ws[i], active, clock[i]))
  {
    var w := ws[i];
    var pre, post := ws[..i], ws[i + 1..];
    var cpre, cpost := clock[..i], clock[i + 1..];
    assert ws == pre + [w] + post;
    assert clock == cpre + [clock[i]] + cpost;
    RunTaskAppend(pre, cpre, [w], [clock[i]], active);
    RunTaskAppend(pre + [w], cpre + [clock[i]], post, cpost, active);
    var upre, umid, upost := RunTask(pre, active, cpre), RunTask([w], active, [clock[i]]), RunTask(post, active, cpost);
    assert forall j :: 0 <= j < |pre| ==> pre[j] == ws[j];
    assert forall j :: 0 <= j < |post| ==> post[j] == ws[i + 1 + j];
    RunTaskTargetsOthersNot(pre, active, cpre, w);
    RunTaskTargetsOthersNot(post, active, cpost, w);
    ApplyUpdatesAppend(w, upre + umid, upost);
    ApplyUpdatesAppend(w, upre, umid);
    assert ApplyUpdates(w, upre) == w;
    var own := Apply(w, InactivityUpdate(w, active, clock[i]));
    assert ApplyUpdates(w, umid) == own;
  }

  /** Applying all the updates of a pass gives the reference: every workspace after its own update. */
  lemma RunTaskAppliesOwnUpdates(ws: seq<Workspace>, active: set<Port>, clock: seq<Timestamp>)
    requires |clock| == |ws|
    requires IdsDistinct(ws)
    ensures ApplyAll(ws, RunTask(ws, active, clock)) == SettleAll(ws, active, clock)
  {
    var us := RunTask(ws, active, clock);
    var applied, settled := ApplyAll(ws, us), SettleAll(ws, active, clock);
    forall i | 0 <= i < |ws|
      ensures applied[i] == settled[i]
    {
      RunTaskAppliesOwnUpdate(ws, active, clock, i);
    }
  }

  /**
   Once the conductor has applied a pass's updates, the next pass with the
   same active ports issues none, whatever times it reads.
   */
  lemma RunTaskIdempotent(ws: seq<Workspace>, active: set<Port>, clock: seq<Timestamp>, later: seq<Timestamp>)
    requires |clock| == |ws| && |later| == |ws|
    requires IdsDistinct(ws)
    ensures RunTask(ApplyAll(ws, RunTask(ws, active, clock)), active, later) == []
  {
    RunTaskAppliesOwnUpdates(ws, active, clock);
  }
}
