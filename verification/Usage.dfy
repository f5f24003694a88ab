/** `update_instances` of `record_usage`: the instance table that polling fills. Times are days, as
    `julianday` gives them. */
module Usage {
  import opened Common
  import opened InstanceTypes
  import opened KeyOwnership

  // ---- Polling -----------------------------------------------------------------------

  datatype Status = Terminated | Stopped | Live

  /** An instance as a poll sees it. */
  datatype Sighting = Sighting(id: string, kind: Kind, launch: real, status: Status, spot: bool, key: string, now: real)

  datatype Row = Row(kind: Kind, start: real, end: Option<real>, lastSeen: real, spot: bool, user: string)

  type Table = map<string, Row>

  /** What one sighting does to the `instances` table. */
  function Record(t: Table, s: Sighting): Table {
    var row := Row(s.kind, s.launch, None, s.now, s.spot, Owner(s.key));
    if s.status.Terminated? then
      if s.id in t && t[s.id].end.Some? then t else t[s.id := row.(end := Some(s.now))]
    else t[s.id := row]
  }

  function RecordAll(t: Table, history: seq<Sighting>): Table {
    if history == [] then t
    else
      var n := |history| - 1;
      Record(RecordAll(t, history[..n]), history[n])
  }

  /** Polls compose: what two leave behind is what one of both their sightings would. */
  lemma {:induction false} RecordAllConcat(t: Table, first: seq<Sighting>, second: seq<Sighting>)
    ensures RecordAll(RecordAll(t, first), second) == RecordAll(t, first + second)
    decreases |second|
  {
    if second == [] {
      assert first + second == first;
    } else {
      var n := |second| - 1;
      RecordAllConcat(t, first, second[..n]);
      assert (first + second)[..|first| + n] == first + second[..n];
    }
  }

  /** The database: the instances, and the ids with a stop that has no end. */
  class Database {
    var instances: Table
    var stopped: set<string>

    constructor ()
      ensures instances == map[] && stopped == {}
    {
      instances, stopped := map[], {};
    }

    /** `update_instances` on what the cloud reports at one moment. Closing a stop is attempted with a
        malformed statement, so it raises: `done` sightings are recorded before that. */
    method UpdateInstances(seen: seq<Sighting>) returns (ok: bool, done: nat)
      modifies this
      ensures done <= |seen| && instances == RecordAll(old(instances), seen[..done])
      ensures ok <==> done == |seen|
      ensures !ok ==> seen[done].status.Live?
      ensures stopped == old(stopped) + set s | s in seen[..done] && s.status.Stopped? :: s.id
      ensures !ok ==> seen[done].id in stopped
      ensures ok ==> forall i :: 0 <= i < |seen| && seen[i].status.Live? ==> seen[i].id !in old(stopped)
    {
      done := 0;
      while done < |seen|
        invariant done <= |seen| && instances == RecordAll(old(instances), seen[..done])
        invariant stopped == old(stopped) + set s | s in seen[..done] && s.status.Stopped? :: s.id
        invariant forall i :: 0 <= i < done && seen[i].status.Live? ==> seen[i].id !in old(stopped)
      {
        var s := seen[done];
        if s.status.Live? && s.id in stopped {
          return false, done;
        }
        assert seen[..done + 1][..done] == seen[..done];
        instances := Record(instances, s);
        if s.status.Stopped? {
          stopped := stopped + {s.id};
        }
        done := done + 1;
      }
      assert seen[..|seen|] == seen;
      ok := true;
    }
  }

  // ---- What the end time says about a whole history ------------------------------------

  predicate SeenAt(history: seq<Sighting>, id: string, k: int) {
    0 <= k < |history| && history[k].id == id
  }

  /** Sighting `k` ends a live stretch: terminated, and not terminated when last seen before. */
  ghost predicate TerminationAt(history: seq<Sighting>, id: string, k: int) {
    && SeenAt(history, id, k) && history[k].status.Terminated?
    && forall j :: 0 <= j < k && SeenAt(history, id, j) && history[j].status.Terminated? ==>
         exists i :: j < i < k && SeenAt(history, id, i) && !history[i].status.Terminated?
  }

  ghost predicate TerminatedFrom(history: seq<Sighting>, id: string, k: int) {
    forall j :: k <= j < |history| && SeenAt(history, id, j) ==> history[j].status.Terminated?
  }

  /** Apart from its end, the row says what the sighting saw. */
  predicate Describes(r: Row, s: Sighting) {
    r.kind == s.kind && r.start == s.launch && r.lastSeen == s.now && r.spot == s.spot && r.user == Owner(s.key)
  }

  /** For every history: a row exists exactly for the instances seen; its end is open exactly when the
      instance was last seen alive, and otherwise it is the time of the sighting at which the
      instance turned from alive to terminated for the last time. The rest of the row is from that
      sighting. */
  lemma {:induction false} EndTimeOfHistory(history: seq<Sighting>, id: string) returns (k: nat)
    ensures var t := RecordAll(map[], history);
            && (id in t <==> exists j :: SeenAt(history, id, j))
            && (id in t ==> SeenAt(history, id, k) && Describes(t[id], history[k]))
            && (id in t && t[id].end.Some? ==>
                  TerminationAt(history, id, k) && TerminatedFrom(history, id, k) && t[id].end.value == history[k].now)
            && (id in t && t[id].end.None? ==>
                  !history[k].status.Terminated?
                  && forall j :: k < j ==> !SeenAt(history, id, j))
  {
    k := 0;
    if history == [] {
    } else {
      var n := |history| - 1;
      var before := history[..n];
      k := EndTimeOfHistory(before, id);
      assert forall j :: 0 <= j < n ==> (SeenAt(history, id, j) <==> SeenAt(before, id, j)) && history[j] == before[j];
      var t, u := RecordAll(map[], before), RecordAll(map[], history);
      assert u == Record(t, history[n]);
      if history[n].id == id {
        assert SeenAt(history, id, n);
        if !history[n].status.Terminated? || id !in t || t[id].end.None? {
          if id in t {
            assert SeenAt(history, id, k);
          }
          k := n;
        }
      }
    }
  }

  /** Once terminated, an instance is only ever seen terminated. */
  ghost predicate NeverLeavesTerminated(history: seq<Sighting>, id: string) {
    forall i, j :: 0 <= i < j && SeenAt(history, id, i) && SeenAt(history, id, j) && history[i].status.Terminated? ==>
      history[j].status.Terminated?
  }

  /** Sighting `k` is the first that saw the instance terminated. */
  ghost predicate FirstTermination(history: seq<Sighting>, id: string, k: int) {
    && SeenAt(history, id, k) && history[k].status.Terminated?
    && forall j :: 0 <= j < k && SeenAt(history, id, j) ==> !history[j].status.Terminated?
  }

  /** When the instance never leaves `terminated`, the end time of its row is the time of the first
      poll that saw it terminated, and null when none has. */
  lemma EndTimeIsFirstTermination(history: seq<Sighting>, id: string)
    requires NeverLeavesTerminated(history, id) && exists j :: SeenAt(history, id, j)
    ensures var t := RecordAll(map[], history);
            && id in t
            && (t[id].end.Some? ==> exists k :: FirstTermination(history, id, k) && t[id].end.value == history[k].now)
            && (t[id].end.None? ==> forall j :: SeenAt(history, id, j) ==> !history[j].status.Terminated?)
  {
    var k := EndTimeOfHistory(history, id);
    var t := RecordAll(map[], history);
    if t[id].end.Some? {
      assert FirstTermination(history, id, k);
    }
  }

  /** Polls that see the instance terminated, or not at all, never change a row that has an end time. */
  lemma {:induction false} EndedRowIsFrozen(t: Table, more: seq<Sighting>, id: string)
    requires id in t && t[id].end.Some?
    requires forall s <- more :: s.id == id ==> s.status.Terminated?
    ensures id in RecordAll(t, more) && RecordAll(t, more)[id] == t[id]
    decreases |more|
  {
    if more == [] {
    } else {
      var n := |more| - 1;
      assert more[n] in more && forall s <- more[..n] :: s in more;
      EndedRowIsFrozen(t, more[..n], id);
    }
  }
}
