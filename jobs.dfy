// The background job table: a fixed array of 100 process ids filled from
// the front, appended to when a background command starts and compacted
// when one of its processes is reaped.

module Jobs {
  import opened Text

  /** Capacity of bg_processes. */
  const MAX_BG_PROCESSES := 100

  /** No process id is listed twice. */
  predicate NoDuplicates(s: seq<int>) {
    forall i, j :: 0 <= i < j < |s| ==> s[i] != s[j]
  }

  /** The table after add_bg_process: the pid is appended while there is
      room; a full table is left as it is. */
  function AddJob(jobs: seq<int>, pid: int): (r: seq<int>)
    ensures |jobs| <= MAX_BG_PROCESSES ==> |r| <= MAX_BG_PROCESSES
    ensures |r| >= |jobs| && r[..|jobs|] == jobs
    ensures pid in r <==> pid in jobs || |jobs| < MAX_BG_PROCESSES
  {
    if |jobs| < MAX_BG_PROCESSES then jobs + [pid] else jobs
  }

  /** The table after remove_bg_process: the first entry equal to pid is
      taken out, the rest keep their order. */
  function RemoveFirst(s: seq<int>, pid: int): (r: seq<int>)
    ensures pid !in s ==> r == s
    ensures |r| <= |s|
  {
    if s == [] then []
    else if s[0] == pid then s[1..]
    else [s[0]] + RemoveFirst(s[1..], pid)
  }

  /** Removal takes out exactly one copy of the pid and nothing else. */
  lemma {:induction false} RemoveFirstCounts(s: seq<int>, pid: int)
    ensures multiset(RemoveFirst(s, pid)) == multiset(s) - multiset{pid}
  {
    if s != [] {
      var t := s[1..];
      assert s == [s[0]] + t;
      assert multiset(s) == multiset{s[0]} + multiset(t);
      if s[0] != pid {
        RemoveFirstCounts(t, pid);
        var r := RemoveFirst(t, pid);
        assert RemoveFirst(s, pid) == [s[0]] + r;
        assert multiset([s[0]] + r) == multiset{s[0]} + multiset(r);
      }
    }
  }

  /** A listed pid costs the table exactly one entry. */
  lemma {:induction false} RemoveFirstLength(s: seq<int>, pid: int)
    requires pid in s
    ensures |RemoveFirst(s, pid)| == |s| - 1
  {
    if s[0] != pid {
      assert pid in s[1..] by {
        var k :| 0 <= k < |s| && s[k] == pid;
        assert s[1..][k - 1] == pid;
      }
      RemoveFirstLength(s[1..], pid);
    }
  }

  /** The entry removed is the first occurrence: what precedes it and what
      follows it are kept, in order. */
  lemma {:induction false} RemoveFirstAt(s: seq<int>, pid: int, k: nat)
    requires k < |s| && s[k] == pid
    requires forall i :: 0 <= i < k ==> s[i] != pid
    ensures RemoveFirst(s, pid) == s[..k] + s[k + 1..]
  {
    if k == 0 {
      assert s[..0] + s[1..] == s[1..];
    } else {
      var t := s[1..];
      assert forall i :: 0 <= i < k - 1 ==> t[i] != pid;
      RemoveFirstAt(t, pid, k - 1);
      var r := RemoveFirst(t, pid);
      assert RemoveFirst(s, pid) == [s[0]] + r;
      assert r == s[1..k] + s[k + 1..] by {
        assert t[..k - 1] == s[1..k];
        assert t[k..] == s[k + 1..];
      }
      AppendAssoc([s[0]], s[1..k], s[k + 1..]);
      assert [s[0]] + s[1..k] == s[..k];
    }
  }

  /** Removing a pid that was just appended restores the table. */
  lemma RemoveAfterAdd(s: seq<int>, pid: int)
    requires pid !in s
    ensures RemoveFirst(s + [pid], pid) == s
  {
    assert forall i :: 0 <= i < |s| ==> (s + [pid])[i] == s[i];
    RemoveFirstAt(s + [pid], pid, |s|);
    assert (s + [pid])[..|s|] == s;
    assert (s + [pid])[|s| + 1..] == [];
  }

  /** Removal keeps a table free of duplicates, and then no copy of the pid
      is left, so removing it again changes nothing. */
  lemma RemoveIdempotent(s: seq<int>, pid: int)
    requires NoDuplicates(s)
    ensures NoDuplicates(RemoveFirst(s, pid))
    ensures pid !in RemoveFirst(s, pid)
    ensures RemoveFirst(RemoveFirst(s, pid), pid) == RemoveFirst(s, pid)
  {
    if pid in s {
      var k :| 0 <= k < |s| && s[k] == pid;
      RemoveFirstAt(s, pid, k);
      DeleteAt(s, k);
    }
  }

  /** Deleting one slot of a duplicate-free table leaves it duplicate-free
      and without the deleted value. */
  lemma DeleteAt(s: seq<int>, k: nat)
    requires k < |s| && NoDuplicates(s)
    ensures NoDuplicates(s[..k] + s[k + 1..])
    ensures s[k] !in s[..k] + s[k + 1..]
  {
    var r := s[..k] + s[k + 1..];
    assert forall i :: 0 <= i < k ==> r[i] == s[i];
    assert forall i :: k <= i < |r| ==> r[i] == s[i + 1];
    forall i, j | 0 <= i < j < |r|
      ensures r[i] != r[j]
    {
      var i', j' := if i < k then i else i + 1, if j < k then j else j + 1;
      assert r[i] == s[i'] && r[j] == s[j'];
    }
  }

  /** Something that changes the table: a background command was started,
      or one of its processes was reaped. */
  datatype Event = Started(pid: int) | Reaped(pid: int)

  /** The table contents after a history of events, starting empty. */
  function Replay(events: seq<Event>): (jobs: seq<int>)
    ensures |jobs| <= MAX_BG_PROCESSES
  {
    if events == [] then []
    else
      var jobs := Replay(events[..|events| - 1]);
      match events[|events| - 1]
      case Started(pid) => AddJob(jobs, pid)
      case Reaped(pid) => RemoveFirst(jobs, pid)
  }

  /** Every process id is started at most once. */
  predicate DistinctStarts(events: seq<Event>) {
    forall i, j :: 0 <= i < j < |events| && events[i].Started? && events[j].Started?
      ==> events[i].pid != events[j].pid
  }

  /** The table only lists pids that were started. */
  predicate StartedIn(events: seq<Event>, pid: int) {
    exists i :: 0 <= i < |events| && events[i] == Started(pid)
  }

  /** When pids are started only once, the table never lists one twice and
      lists only started pids. */
  lemma {:induction false} ReplayNoDuplicates(events: seq<Event>)
    requires DistinctStarts(events)
    ensures NoDuplicates(Replay(events))
    ensures forall p :: p in Replay(events) ==> StartedIn(events, p)
  {
    if events != [] {
      var prefix := events[..|events| - 1];
      PrefixStarts(events);
      ReplayNoDuplicates(prefix);
      var jobs := Replay(prefix);
      match events[|events| - 1]
      case Started(pid) =>
        AddFresh(jobs, pid);
        assert StartedIn(events, pid);
      case Reaped(pid) =>
        RemoveIdempotent(jobs, pid);
        RemoveFirstSubset(jobs, pid);
    }
  }

  /** What holds of a history holds of its prefixes. */
  lemma PrefixStarts(events: seq<Event>)
    requires events != []
    ensures DistinctStarts(events) ==> DistinctStarts(events[..|events| - 1])
    ensures forall p :: StartedIn(events[..|events| - 1], p) ==> StartedIn(events, p)
  {
    var prefix := events[..|events| - 1];
    forall p | StartedIn(prefix, p)
      ensures StartedIn(events, p)
    {
      var i :| 0 <= i < |prefix| && prefix[i] == Started(p);
      assert events[i] == Started(p);
    }
  }

  /** Appending a pid not yet listed keeps the table duplicate-free. */
  lemma AddFresh(jobs: seq<int>, pid: int)
    requires NoDuplicates(jobs) && pid !in jobs
    ensures NoDuplicates(AddJob(jobs, pid))
    ensures forall p :: p in AddJob(jobs, pid) ==> p in jobs || p == pid
  {
  }

  /** Removing one pid leaves every other listed pid listed. */
  lemma RemoveFirstKeepsOthers(jobs: seq<int>, q: int, pid: int)
    requires pid in jobs && q != pid
    ensures pid in RemoveFirst(jobs, q)
  {
    RemoveFirstCounts(jobs, q);
    assert multiset(jobs)[pid] > 0;
    assert multiset(RemoveFirst(jobs, q))[pid] == multiset(jobs)[pid];
  }

  /** A pid that was started while the table had room and has not been
      reaped since is still listed. */
  lemma {:induction false} StartedStaysListed(events: seq<Event>, i: nat, pid: int)
    requires i < |events| && events[i] == Started(pid)
    requires |Replay(events[..i])| < MAX_BG_PROCESSES
    requires forall j :: i < j < |events| ==> events[j] != Reaped(pid)
    ensures pid in Replay(events)
    decreases |events|
  {
    var prefix := events[..|events| - 1];
    var jobs := Replay(prefix);
    assert Replay(events) == match events[|events| - 1]
      case Started(p) => AddJob(jobs, p)
      case Reaped(p) => RemoveFirst(jobs, p);
    if i == |events| - 1 {
      assert prefix == events[..i];
    } else {
      assert prefix[i] == events[i];
      assert prefix[..i] == events[..i];
      StartedStaysListed(prefix, i, pid);
      match events[|events| - 1]
      case Started(p) =>
      case Reaped(p) =>
        RemoveFirstKeepsOthers(jobs, p, pid);
    }
  }

  /** The pid was started at index i while the table had room, and no event
      after i reaps it. */
  predicate LiveSince(events: seq<Event>, pid: int, i: int) {
    0 <= i < |events| && events[i] == Started(pid)
    && |Replay(events[..i])| < MAX_BG_PROCESSES
    && forall j :: i < j < |events| ==> events[j] != Reaped(pid)
  }

  /** When pids are started only once, the table lists exactly the pids that
      were started with room to spare and not reaped since. */
  lemma ReplayListsLive(events: seq<Event>, pid: int)
    requires DistinctStarts(events)
    ensures pid in Replay(events) <==> exists i :: LiveSince(events, pid, i)
  {
    if pid in Replay(events) {
      var i := ListedIsLive(events, pid);
    }
    if exists i :: LiveSince(events, pid, i) {
      var i :| LiveSince(events, pid, i);
      StartedStaysListed(events, i, pid);
    }
  }

  /** A listed pid names the start that put it in the table. */
  lemma {:induction false} ListedIsLive(events: seq<Event>, pid: int) returns (i: nat)
    requires DistinctStarts(events) && pid in Replay(events)
    ensures LiveSince(events, pid, i)
    decreases |events|
  {
    var prefix := events[..|events| - 1];
    var last := events[|events| - 1];
    PrefixStarts(events);
    if last == Started(pid) && pid !in Replay(prefix) {
      i := |events| - 1;
      FreshStartIsLive(events, pid);
    } else {
      ListedBefore(events, pid);
      i := ListedIsLive(prefix, pid);
      LiveExtends(events, pid, i);
    }
  }

  /** The last event started pid, which was not yet listed: it found room. */
  lemma FreshStartIsLive(events: seq<Event>, pid: int)
    requires events != [] && events[|events| - 1] == Started(pid)
    requires pid in Replay(events) && pid !in Replay(events[..|events| - 1])
    ensures LiveSince(events, pid, |events| - 1)
  {
    var prefix := events[..|events| - 1];
    assert Replay(events) == AddJob(Replay(prefix), pid);
  }

  /** Unless the last event freshly started it, a listed pid was listed
      before the last event, and the last event does not reap it. */
  lemma ListedBefore(events: seq<Event>, pid: int)
    requires DistinctStarts(events) && pid in Replay(events)
    requires !(events[|events| - 1] == Started(pid) && pid !in Replay(events[..|events| - 1]))
    ensures pid in Replay(events[..|events| - 1])
    ensures events[|events| - 1] != Reaped(pid)
  {
    var prefix := events[..|events| - 1];
    var jobs := Replay(prefix);
    PrefixStarts(events);
    match events[|events| - 1]
    case Started(p) =>
      assert Replay(events) == AddJob(jobs, p);
    case Reaped(p) =>
      assert Replay(events) == RemoveFirst(jobs, p);
      ReplayNoDuplicates(prefix);
      RemoveIdempotent(jobs, p);
      RemoveFirstSubset(jobs, p);
  }

  /** A start that is live before the last event stays live through an event
      that does not reap its pid. */
  lemma LiveExtends(events: seq<Event>, pid: int, i: int)
    requires events != [] && LiveSince(events[..|events| - 1], pid, i)
    requires events[|events| - 1] != Reaped(pid)
    ensures LiveSince(events, pid, i)
  {
    var prefix := events[..|events| - 1];
    assert events[i] == prefix[i];
    assert events[..i] == prefix[..i];
  }

  /** Removal only takes entries away. */
  lemma RemoveFirstSubset(jobs: seq<int>, pid: int)
    ensures forall p :: p in RemoveFirst(jobs, pid) ==> p in jobs
  {
    RemoveFirstCounts(jobs, pid);
    forall p | p in RemoveFirst(jobs, pid)
      ensures p in jobs
    {
      assert multiset(RemoveFirst(jobs, pid))[p] > 0;
    }
  }

  /** Under distinct starts, a reaped process is no longer listed. */
  lemma ReapedIsGone(events: seq<Event>, pid: int)
    requires DistinctStarts(events + [Reaped(pid)])
    ensures pid !in Replay(events + [Reaped(pid)])
  {
    var all := events + [Reaped(pid)];
    assert all[..|all| - 1] == events;
    assert DistinctStarts(events);
    ReplayNoDuplicates(events);
    RemoveIdempotent(Replay(events), pid);
  }

  /** bg_processes and bg_count (shell.c:19-20): the first count slots are
      the live background jobs, oldest first. */
  class JobTable {
    var pids: array<int>
    var count: int

    ghost predicate Valid()
      reads this
    {
      pids.Length == MAX_BG_PROCESSES && 0 <= count <= MAX_BG_PROCESSES
    }

    /** The listed jobs. */
    function Jobs(): (jobs: seq<int>)
      reads this, pids
      requires Valid()
      ensures |jobs| == count <= MAX_BG_PROCESSES
    {
      pids[..count]
    }

    /** The table at start-up: empty. */
    constructor()
      ensures Valid() && Jobs() == [] && fresh(pids)
    {
      pids := new int[MAX_BG_PROCESSES];
      count := 0;
    }

    /** add_bg_process (shell.c:327-331). */
    method Add(pid: int)
      requires Valid()
      modifies this, pids
      ensures Valid() && pids == old(pids)
      ensures old(count) < MAX_BG_PROCESSES ==> Jobs() == old(Jobs()) + [pid]
      ensures old(count) == MAX_BG_PROCESSES ==> Jobs() == old(Jobs())
      ensures Jobs() == AddJob(old(Jobs()), pid)
    {
      if count < MAX_BG_PROCESSES {
        pids[count] := pid;
        count := count + 1;
      }
    }

    /** remove_bg_process (shell.c:333-343): find the first slot holding pid,
        shift every later slot one to the left, shorten the table. */
    method Remove(pid: int)
      requires Valid()
      modifies this, pids
      ensures Valid() && pids == old(pids)
      ensures Jobs() == RemoveFirst(old(Jobs()), pid)
    {
      var i := 0;
      while i < count
        invariant Valid() && pids == old(pids) && count == old(count)
        invariant forall k :: 0 <= k < pids.Length ==> pids[k] == old(pids[k])
        invariant 0 <= i <= count
        invariant forall k :: 0 <= k < i ==> pids[k] != pid
      {
        if pids[i] == pid {
          ghost var before := pids[..count];
          RemoveFirstAt(before, pid, i);
          ShiftLeft(i);
          count := count - 1;
          return;
        }
        i := i + 1;
      }
      assert pid !in pids[..count];
    }

    /** The inner loop of remove_bg_process (shell.c:336-338): slots
        from + 1 .. count - 1 move one to the left. */
    method ShiftLeft(from: int)
      requires Valid() && 0 <= from < count
      modifies pids
      ensures pids[..count - 1] == old(pids[..count])[..from] + old(pids[..count])[from + 1..]
    {
      var j := from;
      while j < count - 1
        invariant from <= j <= count - 1
        invariant forall k :: 0 <= k < from ==> pids[k] == old(pids[k])
        invariant forall k :: from <= k < j ==> pids[k] == old(pids[k + 1])
        invariant forall k :: j <= k < pids.Length ==> pids[k] == old(pids[k])
      {
        pids[j] := pids[j + 1];
        j := j + 1;
      }
    }
  }
}
