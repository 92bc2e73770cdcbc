/** FMOUNT and FUMOUNT on one DN unit (Workbench 2 and later): a handler that
    cannot exit is parked, inhibited with no media, and reused. */
module Amiga {

  /** The part of a DosEnvec that has to match the medium. */
  datatype Geometry = Geometry(surfaces: nat, blocks: nat, low: nat, high: nat, dosType: nat)

  datatype Media = NoMedia | Media(geometry: Geometry, writable: bool)

  datatype Candidate = Unsupported | Candidate(geometry: Geometry)

  /** What `snapshot_node` sees; all zero when the list cannot be locked. */
  datatype Snapshot = Snapshot(present: bool, active: bool, geometry: Geometry)

  const ZERO := Geometry(0, 0, 0, 0, 0)

  /** What the tools do to a node or its medium, with the handler's state then. */
  datatype Event =
    | Eject(active: bool, nesting: nat, seenIdle: bool)
    | Unlink(active: bool)
    | Rewrite(active: bool)
    | Park
    | Restore

  predicate SafeEvent(e: Event) {
    match e
    case Eject(active, nesting, seenIdle) => !active || (nesting > 0 && seenIdle)
    case Unlink(active) => !active
    case Rewrite(active) => !active
    case _ => true
  }

  predicate Safe(log: seq<Event>) {
    forall i :: 0 <= i < |log| ==> SafeEvent(log[i])
  }

  /** Parked by an earlier FUMOUNT, and not restored since. */
  predicate Parked(log: seq<Event>) {
    log != [] && (log[|log| - 1].Park? || (!log[|log| - 1].Restore? && Parked(log[..|log| - 1])))
  }

  lemma ParkedNext(log: seq<Event>, e: Event)
    ensures Parked(log + [e]) == (e.Park? || (!e.Restore? && Parked(log)))
    ensures Safe(log) && SafeEvent(e) ==> Safe(log + [e])
  {
    assert (log + [e])[..|log|] == log;
  }

  datatype Retirement = Gone | NotSupported | StillThere

  /** How far the steps before the mount got. */
  datatype Access = Refused | Open | Inhibited | WasParked

  /** What FUMOUNT knows of the handler before the medium may go. */
  datatype Retreat = Stop | Retired | Idle

  datatype Command = Mount(found: Candidate, writable: bool) | Unmount

  class Unit {
    // The DOS node.
    var present: bool
    var geometry: Geometry
    // Its handler: `running` is what it read when it started, and all it ever will.
    var active: bool
    var running: Geometry
    var knowsDie: bool
    var dying: bool
    var nesting: nat
    // The device unit.
    var media: Media
    // What was done, and whether a query or an un-inhibit has failed.
    ghost var log: seq<Event>
    ghost var trouble: bool
    ghost var seenIdle: bool
    ghost var flushed: bool
    // What went wrong in the current command: the mount itself, another call
    // that was refused, open files.
    ghost var mountFailed: bool
    ghost var refused: bool
    ghost var inUse: bool
    // ACTION_DIE in the current command: whether it was sent, how often the node
    // was looked at since, and whether a look found it without a handler.
    ghost var asked: bool
    ghost var looks: nat
    ghost var sawGone: bool

    /** Any node, any handler in normal operation, any medium. */
    constructor (node: Snapshot, knowsDie: bool, media: Media)
      requires node.active ==> node.present
      ensures Kept() && !trouble && log == []
    {
      present, geometry, active, running := node.present, node.geometry, node.active, node.geometry;
      this.knowsDie, dying, nesting, this.media := knowsDie, false, 0, media;
      log, trouble, seenIdle, flushed := [], false, false, false;
      mountFailed, refused, inUse := false, false, false;
      asked, looks, sawGone := false, 0, false;
    }

    // -------------------------------------------------------------- invariants

    /** At every moment: a running handler works with its node's geometry, and
        nothing unsafe has been done. */
    ghost predicate Steady()
      reads this
    {
      && (active ==> present && running == geometry)
      && (!active ==> nesting == 0)
      && (dying ==> knowsDie)
      && Safe(log)
    }

    /** Between commands: the nesting is 1 exactly when the unit is parked, a
        handler that cannot exit and no medium. */
    ghost predicate Balanced()
      reads this
    {
      && nesting == (if Parked(log) then 1 else 0)
      && (Parked(log) ==> active && !knowsDie && media.NoMedia?)
    }

    ghost predicate Kept()
      reads this
    {
      Steady() && (!trouble ==> Balanced())
    }

    /** A handler was asked to die, and none of n looks found it gone. */
    ghost predicate Outlasted(n: nat)
      reads `asked, `looks, `sawGone
    {
      asked && looks == n && !sawGone
    }

    // ------------------------------------------------------- what AmigaDOS does

    /** An access to the node starts its handler, which reads the DosEnvec. */
    method HandlerMayStart()
      requires Steady()
      modifies `active, `running, `knowsDie, `dying, `nesting
      ensures Steady() && present == old(present)
      ensures old(active) || !present ==>
                active == old(active) && knowsDie == old(knowsDie) && nesting == old(nesting) && running == old(running)
      ensures nesting == old(nesting)
    {
      if present && !active {
        active := *;
        if active {
          running, nesting, dying := geometry, 0, false;
          knowsDie := *;
        }
      }
    }

    /** A handler asked to die may do so, and only such a one. */
    method HandlerMayExit()
      requires Steady()
      modifies `active, `dying, `nesting
      ensures Steady() && (active ==> old(active) && nesting == old(nesting) && dying == old(dying))
      ensures !old(dying) ==> active == old(active) && nesting == old(nesting)
    {
      if active && dying {
        active := *;
        if !active {
          nesting, dying := 0, false;
        }
      }
    }

    /** Between commands. */
    method Meanwhile()
      requires Kept()
      modifies `active, `running, `knowsDie, `dying, `nesting
      ensures Kept()
    {
      HandlerMayExit();
      HandlerMayStart();
    }

    /** A call that may simply be refused. */
    method Lock() returns (ok: bool)
      modifies `refused
      ensures refused == (old(refused) || !ok)
    {
      ok := *;
      refused := refused || !ok;
    }

    /** The node as it is, or nothing when the list cannot be locked. */
    method ReadNode() returns (node: Snapshot)
      modifies `refused
      ensures old(refused) ==> refused
      ensures node.present || !present || refused
      ensures node == Snapshot(present, active && present, geometry) || node == Snapshot(false, false, ZERO)
    {
      var ok := Lock();
      if ok && present {
        node := Snapshot(true, active, geometry);
      } else {
        node := Snapshot(false, false, ZERO);
      }
    }

    /** `snapshot_node`; to miss a node that is there is trouble. */
    method SnapshotNode() returns (node: Snapshot)
      modifies `refused, `trouble
      ensures old(refused) ==> refused
      ensures trouble == (old(trouble) || (present && !node.present))
      ensures node.present || !present || refused
      ensures node == Snapshot(present, active && present, geometry) || node == Snapshot(false, false, ZERO)
    {
      node := ReadNode();
      trouble := trouble || (present && !node.present);
    }

    /** One more look with `snapshot_node` at a node whose handler was asked to die. */
    method Look() returns (node: Snapshot)
      requires Steady()
      modifies `active, `dying, `nesting, `refused, `looks, `sawGone
      ensures Steady() && (active ==> old(active) && nesting == old(nesting) && dying == old(dying))
      ensures !old(dying) ==> active == old(active) && nesting == old(nesting)
      ensures old(refused) ==> refused
      ensures node == Snapshot(present, active && present, geometry) || node == Snapshot(false, false, ZERO)
      ensures looks == old(looks) + 1 && sawGone == (old(sawGone) || (node.present && !node.active))
    {
      HandlerMayExit();
      node := ReadNode();
      looks, sawGone := looks + 1, sawGone || (node.present && !node.active);
    }

    /** One more look at whether there is a handler, or a node, at all. */
    method LookForHandler() returns (gone: bool)
      requires Steady()
      modifies `active, `dying, `nesting, `refused, `looks, `sawGone
      ensures Steady() && (active ==> old(active) && nesting == old(nesting) && dying == old(dying))
      ensures !old(dying) ==> active == old(active) && nesting == old(nesting)
      ensures old(refused) ==> refused
      ensures gone ==> !active
      ensures looks == old(looks) + 1 && sawGone == (old(sawGone) || gone)
    {
      HandlerMayExit();
      var ok := Lock();
      gone := ok && !active;
      looks, sawGone := looks + 1, sawGone || gone;
    }

    /** ACTION_DISK_INFO; an inhibited handler answers ID_BUSY. */
    method DiskInfo() returns (ok: bool, busy: bool, open: bool)
      requires active
      modifies `trouble, `seenIdle, `inUse
      ensures ok ==> busy == (nesting > 0) && trouble == old(trouble) && seenIdle == !open && inUse == open
      ensures !ok ==> trouble
    {
      ok, open := *, *;
      busy := nesting > 0;
      if ok {
        seenIdle, inUse := !open, open;
      } else {
        trouble := true;
      }
    }

    /** `unit_media_absent`: TD_CHANGESTATE. */
    method MediaAbsent() returns (absent: bool)
      modifies `trouble
      ensures (absent ==> media.NoMedia?) && (!trouble ==> absent == media.NoMedia?)
      ensures old(trouble) ==> trouble
    {
      var failed: bool := *;
      absent := !failed && media.NoMedia?;
      if failed {
        trouble := true;
      }
    }

    /** ACTION_FLUSH. */
    method FlushHandler() returns (ok: bool)
      requires active
      modifies `flushed, `refused
      ensures flushed == ok && refused == (old(refused) || !ok)
    {
      ok := *;
      flushed, refused := ok, refused || !ok;
    }

    method Die() returns (ok: bool, notKnown: bool)
      requires Steady() && active
      modifies `dying, `asked, `looks, `sawGone
      ensures Steady() && notKnown == !knowsDie && (ok ==> knowsDie)
      ensures !knowsDie ==> !dying
      ensures asked && looks == 0 && !sawGone
    {
      asked, looks, sawGone := true, 0, false;
      notKnown := !knowsDie;
      dying := knowsDie;
      ok := *;
      ok := ok && knowsDie;
    }

    method InhibitTrue() returns (ok: bool)
      requires Steady() && active
      modifies `nesting, `refused
      ensures Steady() && nesting == old(nesting) + if ok then 1 else 0
      ensures refused == (old(refused) || !ok)
    {
      ok := *;
      refused := refused || !ok;
      if ok {
        nesting := nesting + 1;
      }
    }

    method InhibitFalse() returns (ok: bool)
      requires Steady() && active && nesting > 0
      modifies `nesting, `trouble
      ensures Steady() && nesting == old(nesting) - if ok then 1 else 0
      ensures trouble == (old(trouble) || !ok)
    {
      ok := *;
      if ok {
        nesting := nesting - 1;
      } else {
        trouble := true;
      }
    }

    /** MOUNT_CATALOG: on failure the medium stays as it was. */
    method MountCatalog(candidate: Geometry, writable: bool) returns (ok: bool)
      modifies `media, `mountFailed
      ensures media == if ok then Media(candidate, writable) else old(media)
      ensures mountFailed == !ok
    {
      ok := *;
      mountFailed := !ok;
      if ok {
        media := Media(candidate, writable);
      }
    }

    /** MakeDosNode and AddDosNode; a node of that name already there makes them fail. */
    method AddDosNode(candidate: Geometry) returns (ok: bool)
      requires Steady()
      modifies `present, `geometry, `refused
      ensures Steady() && (ok ==> present && geometry == candidate && !old(present))
      ensures (old(refused) ==> refused) && (!ok ==> refused)
      ensures !ok ==> present == old(present) && geometry == old(geometry)
    {
      ok := *;
      ok := ok && !present;
      refused := refused || !ok;
      if ok {
        present, geometry := true, candidate;
      }
    }

    /** A command begins: nothing has been seen yet, and nothing has gone wrong. */
    ghost method Begin()
      modifies `seenIdle, `flushed, `mountFailed, `refused, `inUse, `asked, `looks, `sawGone
      ensures !seenIdle && !flushed && !mountFailed && !refused && !inUse && !asked && looks == 0 && !sawGone
    {
      seenIdle, flushed, mountFailed, refused, inUse := false, false, false, false, false;
      asked, looks, sawGone := false, 0, false;
    }

    ghost method Record(e: Event)
      modifies `log
      ensures log == old(log) + [e] && Parked(log) == (e.Park? || (!e.Restore? && Parked(old(log))))
      ensures Safe(old(log)) && SafeEvent(e) ==> Safe(log)
    {
      ParkedNext(log, e);
      log := log + [e];
    }

    // ------------------------------------------------------------------ FMOUNT

    /** `node_parked`. */
    method NodeParked(node: Snapshot) returns (parked: bool)
      requires Steady() && (node.active ==> active)
      modifies `trouble, `seenIdle, `inUse
      ensures Steady() && (parked ==> node.active && media.NoMedia? && nesting > 0)
      ensures !trouble && node.active ==> parked == (media.NoMedia? && nesting > 0)
      ensures old(trouble) ==> trouble
    {
      if !node.active {
        return false;
      }
      var absent := MediaAbsent();
      if !absent {
        return false;
      }
      var ok, busy, open := DiskInfo();
      parked := ok && busy;
    }

    /** `retire_handler`: ACTION_DIE, then at most twenty looks, up to the first
        that finds the node without a handler. */
    method RetireHandler(node: Snapshot) returns (r: Retirement)
      requires Steady() && node.active == active
      modifies `dying, `active, `nesting, `refused, `asked, `looks, `sawGone
      ensures Steady() && (r.Gone? ==> !active) && (r.NotSupported? ==> old(active) && !knowsDie)
      ensures old(refused) ==> refused
      ensures !old(active) ==> r.Gone?
      ensures r.StillThere? ==> Outlasted(20)
      ensures old(active) ==> asked && looks <= 20 && (r.Gone? <==> sawGone)
      ensures !knowsDie && old(active) ==> r.NotSupported? && active && nesting == old(nesting)
      ensures active ==> old(active) && nesting == old(nesting)
    {
      if !node.active {
        return Gone;
      }
      var ok, notKnown := Die();
      if !ok && notKnown {
        return NotSupported;
      }
      var tries := 0;
      while tries < 20
        invariant Steady() && (active ==> old(active) && nesting == old(nesting))
        invariant asked && looks == tries <= 20 && !sawGone && (old(refused) ==> refused)
      {
        var current := Look();
        if current.present && !current.active {
          return Gone;
        }
        tries := tries + 1;
      }
      r := StillThere;
    }

    /** `create_node`. */
    method CreateNode(candidate: Geometry) returns (ok: bool)
      requires Steady()
      modifies `present, `geometry, `refused
      ensures Steady() && (ok ==> present && geometry == candidate && !old(present))
      ensures (old(refused) ==> refused) && (!ok ==> refused)
      ensures !ok ==> present == old(present) && geometry == old(geometry)
    {
      ok := AddDosNode(candidate);
    }

    /** `update_inactive_envec`. */
    method UpdateInactiveEnvec(candidate: Geometry) returns (ok: bool)
      requires Steady()
      modifies `geometry, `log, `refused
      ensures Steady() && Parked(log) == Parked(old(log)) && (old(refused) ==> refused)
      ensures !ok ==> refused || !present || active
      ensures ok ==> present && !active && geometry == candidate
      ensures !ok ==> geometry == old(geometry) && log == old(log)
    {
      ok := Lock();
      if !ok || !present || active {
        return false;
      }
      geometry := candidate;
      Record(Rewrite(active));
    }

    /** From `node_parked` to the point where the image may be mounted. */
    method TakeAccess(node: Snapshot, compatible: bool) returns (a: Access)
      requires Steady() && (if node.present then node.active == active else !node.active && (active ==> trouble))
      requires !node.present ==> compatible
      requires !asked
      modifies `trouble, `seenIdle, `inUse, `dying, `active, `nesting, `refused, `asked, `looks, `sawGone
      ensures Steady() && (old(trouble) ==> trouble) && (old(refused) ==> refused)
      // The reasons there are for not mounting at all.
      ensures a.Refused? ==>
                refused || Outlasted(20) || (old(active) && !compatible && (!old(knowsDie) || old(nesting) > 0))
      ensures a.Refused? || a.Open? ==> active ==> nesting == old(nesting)
      ensures a.Open? ==> !active || trouble
      ensures a.Inhibited? ==> active && node.present && compatible && nesting == old(nesting) + 1
      ensures a.WasParked? ==> active && node.present && compatible && nesting == old(nesting) > 0 && media.NoMedia?
      ensures !trouble && a.Inhibited? ==> old(nesting) == 0 || !media.NoMedia?
      ensures !trouble && old(active) && media.NoMedia? && old(nesting) > 0 ==>
                a == if compatible then WasParked else Refused
      ensures old(active) && !knowsDie && !compatible ==> a.Refused?
      ensures !knowsDie ==> active == old(active)
    {
      var parked := NodeParked(node);
      if parked {
        return if compatible then WasParked else Refused;
      }
      if compatible && node.active {
        var ok := InhibitTrue();
        return if ok then Inhibited else Refused;
      }
      if !compatible {
        var r := RetireHandler(node);
        return if r.Gone? then Open else Refused;
      }
      a := Open;
    }

    /** From MOUNT_CATALOG on. */
    method MountAndRelease(a: Access, node: Snapshot, candidate: Geometry, writable: bool)
      returns (rc: int, ghost inserted: bool)
      requires Steady() && !a.Refused?
               && (a.Inhibited? || a.WasParked? ==> active && nesting > 0 && geometry == candidate && node.present)
      requires a.Open? ==> !active || trouble
      requires node.present ==> present && node.geometry == geometry
      requires !node.present && present ==> trouble
      modifies `active, `running, `knowsDie, `dying, `nesting, `media, `present, `geometry, `log, `trouble,
               `mountFailed, `refused
      ensures inserted == !mountFailed && (old(refused) ==> refused)
      ensures rc != 0 ==> mountFailed || refused || trouble || (active && node.geometry != candidate)
      ensures Steady() && (old(trouble) ==> trouble) && (inserted || (media == old(media) && geometry == old(geometry)))
      ensures rc == 0 || rc == 10
      ensures rc == 0 ==> inserted && present && geometry == candidate && media == Media(candidate, writable)
      ensures Parked(log) == (rc != 0 && Parked(old(log)))
      ensures (rc != 0 ==> present == old(present))
              && (!trouble && node.present && node.geometry == candidate && inserted ==> rc == 0)
      ensures a.Open? && !trouble ==> nesting == 0
      ensures a.Inhibited? ==> active && knowsDie == old(knowsDie) && (!trouble ==> nesting == old(nesting) - 1)
      ensures a.WasParked? ==> active && knowsDie == old(knowsDie)
                               && (!trouble ==> nesting == old(nesting) - (if rc == 0 then 1 else 0)
                                                && (rc == 0 <==> inserted))
    {
      var compatible := !node.present || node.geometry == candidate;
      HandlerMayStart();
      var ok := MountCatalog(candidate, writable);
      inserted := ok;
      HandlerMayStart();
      if ok && !node.present {
        ok := CreateNode(candidate);
      }
      if ok && !compatible {
        ok := UpdateInactiveEnvec(candidate);
      }
      if (a.Inhibited? || a.WasParked?) && (ok || !a.WasParked?) {
        var un := InhibitFalse();
        ok := ok && un;
      }
      rc := if ok then 0 else 10;
      if ok {
        Record(Restore);
      }
    }

    /** `main` of FMOUNT, once its arguments are read and the unit is open;
        `found` is what inspecting the catalog slot gave. */
    method Fmount(found: Candidate, writable: bool) returns (rc: int, ghost inserted: bool)
      requires Kept()
      modifies this
      ensures Kept() && (old(trouble) ==> trouble) && (rc == 0 || rc == 10)
      ensures !inserted ==> rc == 10 && media == old(media) && geometry == old(geometry) && present == old(present)
      // Success means the node, and any handler it has, fit the new medium.
      ensures rc == 0 ==> found.Candidate? && present && geometry == found.geometry
                          && media == Media(found.geometry, writable)
      ensures rc == 0 && !trouble ==> nesting == 0
      ensures rc != 0 ==> present == old(present)
      // Where the node fits already, mounting is all that can fail.
      ensures !trouble && old(present) && found == Candidate(old(geometry)) && inserted ==> rc == 0
      // A parked unit: a compatible image restores it unless the mount itself
      // or the snapshot fails, and any other leaves it parked.
      ensures !trouble && old(Parked(log)) && found == Candidate(old(geometry)) ==> rc == 0 || mountFailed
      ensures !trouble && old(Parked(log)) && rc == 0 ==> active && running == found.geometry == old(geometry)
      ensures !trouble && old(Parked(log)) && rc != 0 ==> Parked(log)
      // Every failure has a cause.
      ensures inserted ==> !mountFailed
      ensures rc != 0 ==>
                || found.Unsupported? || trouble || mountFailed || refused || Outlasted(20)
                || (old(active) && !old(knowsDie) && found != Candidate(old(geometry)))
                || (active && found != Candidate(old(geometry)))
      // A handler that cannot exit never gets a medium of another kind.
      ensures !trouble && old(active) && !old(knowsDie) && found != Candidate(old(geometry)) ==> rc == 10 && !inserted
    {
      rc, inserted := 10, false;
      Begin();
      if found.Unsupported? {
        return;
      }
      var node := SnapshotNode();
      var compatible := !node.present || node.geometry == found.geometry;
      var a := TakeAccess(node, compatible);
      if a.Refused? {
        return;
      }
      rc, inserted := MountAndRelease(a, node, found.geometry, writable);
    }

    // ----------------------------------------------------------------- FUMOUNT

    /** `wait_handler_retired`: at most twenty-one looks, up to the first that finds
        no handler. */
    method WaitHandlerRetired() returns (retired: bool)
      requires Steady() && active && asked && looks == 0 && !sawGone
      modifies `active, `dying, `nesting, `refused, `looks, `sawGone
      ensures Steady() && (retired ==> !active) && (active ==> nesting == old(nesting))
      ensures old(refused) ==> refused
      ensures looks <= 21 && (retired <==> sawGone) && (!retired ==> Outlasted(21))
      ensures !old(dying) ==> active
    {
      var tries := 0;
      while tries < 20
        invariant Steady() && (active ==> nesting == old(nesting) && dying == old(dying)) && (!old(dying) ==> active)
        invariant looks == tries <= 20 && !sawGone && (old(refused) ==> refused)
      {
        var gone := LookForHandler();
        if gone {
          return true;
        }
        tries := tries + 1;
      }
      retired := LookForHandler();
    }

    /** ACTION_FLUSH, ACTION_DIE, and what its answer calls for: waiting for the
        handler to go, or making sure that it is idle and inhibiting it. */
    method Quiesce() returns (r: Retreat)
      requires Steady() && active && !inUse
      modifies `trouble, `seenIdle, `inUse, `flushed, `dying, `active, `nesting, `refused, `asked, `looks, `sawGone
      ensures old(refused) ==> refused
      ensures r.Stop? ==> refused || Outlasted(21) || trouble || (active && !knowsDie && inUse)
      ensures Steady() && (old(trouble) ==> trouble)
      ensures r.Stop? && active ==> nesting == old(nesting)
      ensures !r.Stop? ==> flushed
      ensures r.Retired? ==> !active && sawGone
      ensures r.Idle? ==> active && !knowsDie && seenIdle && nesting == old(nesting) + 1
      ensures !knowsDie ==> active
    {
      hide Safe;
      var ok := FlushHandler();
      if !ok {
        return Stop;
      }
      var notKnown;
      ok, notKnown := Die();
      if ok || !notKnown {
        var retired := WaitHandlerRetired();
        return if retired then Retired else Stop;
      }
      var busy, open;
      ok, busy, open := DiskInfo();
      if !ok || open {
        return Stop;
      }
      ok := InhibitTrue();
      r := if ok then Idle else Stop;
    }

    /** From `get_handler_state` to the point where the medium may go. */
    method Retire() returns (r: Retreat)
      requires Steady() && !seenIdle && !flushed && !inUse
      modifies `trouble, `seenIdle, `inUse, `flushed, `dying, `active, `nesting, `refused, `asked, `looks, `sawGone
      ensures old(refused) ==> refused
      // The reasons there are for not ejecting.
      ensures r.Stop? ==> refused || Outlasted(21) || trouble || old(nesting) > 0 || (active && !knowsDie && inUse)
      ensures Steady() && (old(trouble) ==> trouble)
      ensures r.Stop? && active ==> nesting == old(nesting)
      ensures !r.Stop? && old(active) ==> flushed
      ensures r.Retired? ==> !active
      ensures r.Idle? ==> active && !knowsDie && seenIdle && nesting == old(nesting) + 1
      // One that is parked already is left alone.
      ensures !trouble && old(nesting) > 0 ==> r.Stop? && active
      ensures !knowsDie ==> active == old(active)
    {
      var ok := Lock();
      if !ok {
        return Stop;
      }
      if !active {
        return Retired;
      }
      ok := Lock();          // DeviceProc
      if !ok {
        return Stop;
      }
      var busy, open;
      ok, busy, open := DiskInfo();
      if ok && busy {
        return Stop;
      }
      seenIdle, inUse := false, false;
      r := Quiesce();
    }

    /** TD_EJECT: on failure the medium stays. */
    method TdEject() returns (ok: bool)
      modifies `media, `log, `refused
      ensures media == if ok then NoMedia else old(media)
      ensures refused == (old(refused) || !ok)
      ensures log == old(log) + if ok then [Eject(active, nesting, seenIdle)] else []
      ensures Parked(log) == Parked(old(log))
      ensures Safe(old(log)) && SafeEvent(Eject(active, nesting, seenIdle)) ==> Safe(log)
    {
      ok := *;
      refused := refused || !ok;
      if ok {
        media := NoMedia;
        Record(Eject(active, nesting, seenIdle));
      }
    }

    /** Taking the node out of the list. */
    method RemoveNode() returns (ok: bool)
      requires Steady() && !active
      modifies `present, `log, `refused
      ensures (old(refused) ==> refused) && (!ok ==> refused || !old(present))
      ensures Steady() && Parked(log) == Parked(old(log)) && (ok ==> !present) && (!ok ==> present == old(present))
    {
      ok := Lock();
      if !ok || !present {
        return false;
      }
      Record(Unlink(active));
      present := false;
    }

    /** From TD_EJECT on: an idle handler is parked, or released if the medium stays;
        a node whose handler is gone is removed. */
    method EjectAndRemove(idle: bool) returns (rc: int)
      requires Steady() && (if idle then active && seenIdle && nesting > 0 else !active)
      modifies `media, `log, `nesting, `trouble, `refused, `present
      ensures Steady() && (old(trouble) ==> trouble) && (old(refused) ==> refused) && (rc == 0 || rc == 10)
      ensures rc == 0 ==> media.NoMedia?
                          && (if idle then nesting == old(nesting) && present && Parked(log) else !present)
      ensures rc != 0 || !idle ==> Parked(log) == Parked(old(log))
      ensures rc != 0 ==> present == old(present) && (refused || !old(present))
      ensures rc != 0 && idle ==> media == old(media) && (!trouble ==> nesting == old(nesting) - 1)
      ensures !idle ==> nesting == old(nesting)
    {
      hide Parked, Safe;
      rc := 10;
      var ok := TdEject();
      if !ok {
        if idle {
          var un := InhibitFalse();
        }
        return;
      }
      if idle {
        Record(Park);
        return 0;
      }
      ok := RemoveNode();
      rc := if ok then 0 else 10;
    }

    /** `main` of FUMOUNT, once its argument is read and the unit is open. */
    method Fumount() returns (rc: int)
      requires Kept()
      modifies this
      ensures Kept() && (old(trouble) ==> trouble) && (rc == 0 || rc == 10)
      // The medium never goes from under a handler in normal operation.
      ensures active && nesting == 0 ==> media == old(media)
      ensures old(active) && media != old(media) ==> flushed
      ensures rc == 0 ==> media.NoMedia? && (if present then active && nesting > 0 else !active)
      ensures !trouble && rc == 0 && present ==> Parked(log)
      // A second FUMOUNT of a parked unit changes nothing.
      ensures !trouble && old(Parked(log)) ==> rc == 10 && Parked(log) && nesting == 1 && media == old(media)
      ensures present ==> geometry == old(geometry)
      // Every failure has a cause.
      ensures rc != 0 ==> refused || Outlasted(21) || trouble || inUse || old(Parked(log)) || !old(present)
    {
      hide Parked, Safe;
      rc := 10;
      Begin();
      var r := Retire();
      if r.Stop? {
        return;
      }
      rc := EjectAndRemove(r.Idle?);
    }

    // -------------------------------------------------------------------- runs

    /** Any commands in any order, with handlers starting and exiting between
        them: nesting never builds up, and nothing unsafe is ever done. */
    method Session(commands: seq<Command>)
      requires Kept()
      modifies this
      ensures Kept() && Safe(log)
      ensures !trouble ==> nesting <= 1 && (nesting == 1 <==> Parked(log))
    {
      for i := 0 to |commands|
        invariant Kept()
      {
        Meanwhile();
        match commands[i] {
          case Mount(found, writable) =>
            var rc, inserted := Fmount(found, writable);
          case Unmount =>
            var rc := Fumount();
        }
      }
      Meanwhile();
    }

    /** After any session, a unit that is parked is back with the first image of
        its own kind that can be mounted, however often it was unmounted. */
    method RestoreAfter(commands: seq<Command>, writable: bool) returns (rc: int, ghost wasParked: bool)
      requires Kept()
      modifies this
      ensures !trouble && wasParked ==> rc == 0 || mountFailed
      ensures !trouble && wasParked && rc == 0 ==>
                nesting == 0 && active && running == geometry && media == Media(geometry, writable)
      ensures !trouble && wasParked && rc != 0 ==> Parked(log) && nesting == 1
    {
      Session(commands);
      wasParked := Parked(log);
      ghost var inserted;
      rc, inserted := Fmount(Candidate(geometry), writable);
    }
  }
}
