/** Upserting one status condition with a patch that names a single array position. */
module Conditions {
  import opened Api

  function IndexOf(conditions: seq<Condition>, kind: string): (i: nat)
    ensures i <= |conditions|
    ensures i < |conditions| ==> conditions[i].kind == kind
    ensures forall j :: 0 <= j < i ==> conditions[j].kind != kind
  {
    if conditions == [] || conditions[0].kind == kind then 0 else 1 + IndexOf(conditions[1..], kind)
  }

  /** Keeps the transition time of the first condition of the kind when its status does not change. */
  function MakeCondition(existing: seq<Condition>, kind: string, status: Status, generation: int, reason: string,
                         message: string, now: int): Condition {
    var i := IndexOf(existing, kind);
    var since := if i < |existing| && existing[i].status == status then existing[i].since else now;
    Condition(kind, status, since, generation, reason, message)
  }

  /** RFC 6902 replace and add, or an RFC 7386 merge that writes the whole array. */
  datatype Patch = Replace(index: nat, value: Condition) | Append(value: Condition) | Init(value: Condition)

  function PatchFor(existing: seq<Condition>, c: Condition): Patch {
    var i := IndexOf(existing, c.kind);
    if i < |existing| then Replace(i, c) else if existing == [] then Init(c) else Append(c)
  }

  /** A replace needs its position to exist (RFC 6902 section 4.3), an add needs the array (section 4.1). */
  function Applied(stored: seq<Condition>, p: Patch): Option<seq<Condition>> {
    match p
    case Replace(i, c) => if i < |stored| then Some(stored[i := c]) else None
    case Append(c) => if stored == [] then None else Some(stored + [c])
    case Init(c) => Some([c])
  }

  class Resource {
    var conditions: seq<Condition>

    constructor (conditions: seq<Condition>)
      ensures this.conditions == conditions
    {
      this.conditions := conditions;
    }

    /** `existing` is what the caller read, possibly long ago. */
    method PatchCondition(existing: seq<Condition>, c: Condition) returns (ok: bool)
      modifies this
      ensures ok <==> Applied(old(conditions), PatchFor(existing, c)).Some?
      ensures conditions == if ok then Applied(old(conditions), PatchFor(existing, c)).value else old(conditions)
    {
      var idx := -1;
      for i := 0 to |existing|
        invariant idx == -1 && i <= IndexOf(existing, c.kind)
      {
        if existing[i].kind == c.kind {
          idx := i;
          break;
        }
      }
      if idx < 0 && |existing| == 0 {
        conditions := [c];
        return true;
      }
      if idx >= 0 {
        if idx >= |conditions| { return false; }
        conditions := conditions[idx := c];
        return true;
      }
      if conditions == [] { return false; }
      conditions := conditions + [c];
      return true;
    }
  }

  // ----- Concurrent writers -----

  /**
   * All versions of the array, oldest first, and the version each kind's owner last produced. Owners write
   * only their own kind.
   */
  datatype History = History(versions: seq<seq<Condition>>, commits: map<string, nat>)

  function LastCommit(h: History, kind: string): nat { if kind in h.commits then h.commits[kind] else 0 }

  /** One write: by the owner of the condition's kind, from a read of some version. */
  datatype Write = Write(value: Condition, read: nat)

  /** The read may be as stale as can be, but includes the owner's own last write, and saw some condition. */
  predicate Readable(h: History, w: Write) {
    LastCommit(h, w.value.kind) <= w.read < |h.versions| && h.versions[w.read] != []
  }

  function Latest(h: History): seq<Condition>
    requires h.versions != []
  {
    h.versions[|h.versions| - 1]
  }

  function Committed(h: History, w: Write): History
    requires Readable(h, w)
  {
    match Applied(Latest(h), PatchFor(h.versions[w.read], w.value))
    case None => h
    case Some(next) => History(h.versions + [next], h.commits[w.value.kind := |h.versions|])
  }

  predicate Unique(conditions: seq<Condition>) {
    forall i, j :: 0 <= i < j < |conditions| ==> conditions[i].kind != conditions[j].kind
  }

  /** Later versions only append, and keep the kind at each position. */
  predicate Extends(later: seq<Condition>, earlier: seq<Condition>) {
    |earlier| <= |later| && forall i :: 0 <= i < |earlier| ==> later[i].kind == earlier[i].kind
  }

  /** The kind's entry is the same in both, or absent from both. */
  predicate SameEntry(a: seq<Condition>, b: seq<Condition>, kind: string) {
    var i, j := IndexOf(a, kind), IndexOf(b, kind);
    if i < |a| then i == j && j < |b| && a[i] == b[j] else j == |b|
  }

  /**
   * Kinds are unique and stay in place, and since its owner's last write each kind's entry has not changed:
   * no other writer has touched it.
   */
  ghost predicate Unclobbered(h: History) {
    && h.versions != []
    && (forall v :: 0 <= v < |h.versions| ==> Unique(h.versions[v]))
    && (forall u, v :: 0 <= u <= v < |h.versions| ==> Extends(h.versions[v], h.versions[u]))
    && (forall kind :: LastCommit(h, kind) < |h.versions|)
    && (forall kind, v :: LastCommit(h, kind) <= v < |h.versions| ==> SameEntry(h.versions[v], Latest(h), kind))
  }

  lemma IndexIs(conditions: seq<Condition>, i: nat)
    requires Unique(conditions) && i < |conditions|
    ensures IndexOf(conditions, conditions[i].kind) == i
  {
    var j := IndexOf(conditions, conditions[i].kind);
    assert j <= i;
  }

  /** What a write does to the latest version: its own entry set, every other kept. */
  lemma WriteEffect(h: History, w: Write)
    requires Unclobbered(h) && Readable(h, w)
    ensures Applied(Latest(h), PatchFor(h.versions[w.read], w.value)).Some?
    ensures var now, next := Latest(h), Applied(Latest(h), PatchFor(h.versions[w.read], w.value)).value;
      && Unique(next) && Extends(next, now)
      && IndexOf(next, w.value.kind) < |next| && next[IndexOf(next, w.value.kind)] == w.value
      && forall kind :: kind != w.value.kind ==> SameEntry(now, next, kind)
  {
    var read, now, c := h.versions[w.read], Latest(h), w.value;
    assert Unique(now) && Unique(read) && Extends(now, read);
    assert SameEntry(read, now, c.kind);
    var i := IndexOf(read, c.kind);
    var next := Applied(now, PatchFor(read, c)).value;
    if i < |read| {
      assert next == now[i := c];
    } else {
      assert next == now + [c];
    }
    hide IndexOf;
    IndexIs(next, if i < |read| then i else |now|);
    forall kind | kind != c.kind ensures SameEntry(now, next, kind) {
      var j := IndexOf(now, kind);
      if j < |now| { IndexIs(next, j); }
    }
  }

  lemma ExtendsThrough(a: seq<Condition>, b: seq<Condition>, c: seq<Condition>)
    requires Extends(b, a) && Extends(c, b)
    ensures Extends(c, a)
  {
  }

  lemma WriteKeeps(h: History, w: Write)
    requires Unclobbered(h) && Readable(h, w)
    ensures Unclobbered(Committed(h, w))
  {
    hide IndexOf, Unique, Extends, SameEntry, PatchFor, Applied;
    WriteEffect(h, w);
    var after, n := Committed(h, w), |h.versions|;
    var next := after.versions[n];
    SameAsItself(next);
    assert after.versions == h.versions + [next] && Latest(after) == next;
    forall v | 0 <= v < |after.versions| ensures Unique(after.versions[v]) {
      assert v < n ==> Unique(h.versions[v]);
    }
    forall kind ensures LastCommit(after, kind) <= n {
      assert LastCommit(h, kind) < n;
    }
    forall u, v | 0 <= u <= v < |after.versions| ensures Extends(after.versions[v], after.versions[u]) {
      if u < n {
        assert Extends(Latest(h), h.versions[u]);
        if v == n {
          ExtendsThrough(h.versions[u], Latest(h), next);
        } else {
          assert Extends(h.versions[v], h.versions[u]);
        }
      }
    }
    forall kind, v | LastCommit(after, kind) <= v < |after.versions| ensures SameEntry(after.versions[v], next, kind) {
      if v < n {
        assert kind != w.value.kind && LastCommit(h, kind) <= v;
        SameThrough(h.versions[v], Latest(h), next, kind);
      }
    }
  }

  lemma SameAsItself(a: seq<Condition>)
    ensures Extends(a, a) && forall kind :: SameEntry(a, a, kind)
  {
  }

  lemma SameThrough(a: seq<Condition>, b: seq<Condition>, c: seq<Condition>, kind: string)
    requires SameEntry(a, b, kind) && SameEntry(b, c, kind)
    ensures SameEntry(a, c, kind)
  {
  }

  function Written(start: seq<Condition>, writes: seq<Write>): History
    requires AllReadable(start, writes)
    decreases |writes|, 1
  {
    if writes == [] then History([start], map[])
    else Committed(Written(start, writes[..|writes| - 1]), writes[|writes| - 1])
  }

  /** Each read is possible when the write happens. */
  predicate AllReadable(start: seq<Condition>, writes: seq<Write>)
    decreases |writes|, 0
  {
    writes != [] ==>
      AllReadable(start, writes[..|writes| - 1])
      && Readable(Written(start, writes[..|writes| - 1]), writes[|writes| - 1])
  }

  lemma StartUnclobbered(start: seq<Condition>)
    requires Unique(start)
    ensures Unclobbered(History([start], map[]))
  {
  }

  /** The last value an owner wrote. */
  function LastValue(writes: seq<Write>, kind: string): Option<Condition> {
    if writes == [] then None
    else if writes[|writes| - 1].value.kind == kind then Some(writes[|writes| - 1].value)
    else LastValue(writes[..|writes| - 1], kind)
  }

  /**
   * Whatever order the writes commit in and however stale their reads, the array never lists a kind twice, and
   * each kind stands at the last value its owner wrote, or as it was at the start.
   */
  lemma {:induction false} WritersNeverClobber(start: seq<Condition>, writes: seq<Write>, kind: string)
    requires Unique(start) && AllReadable(start, writes)
    ensures var h := Written(start, writes); var now := Latest(h);
      && Unclobbered(h) && Unique(now)
      && match LastValue(writes, kind)
         case Some(c) => IndexOf(now, kind) < |now| && now[IndexOf(now, kind)] == c
         case None => SameEntry(start, now, kind)
    decreases |writes|
  {
    hide IndexOf, Unique, Extends, PatchFor, Applied;
    if writes == [] {
      SameAsItself(start);
      assert Latest(Written(start, writes)) == start && LastValue(writes, kind) == None;
      StartUnclobbered(start);
    } else {
      var n := |writes| - 1;
      var before := Written(start, writes[..n]);
      WritersNeverClobber(start, writes[..n], kind);
      WriteEffect(before, writes[n]);
      WriteKeeps(before, writes[n]);
      assert writes[n].value.kind != kind ==> SameEntry(Latest(before), Latest(Written(start, writes)), kind);
    }
  }

  // ----- The unguarded case -----

  /** A write from a read that saw no array replaces it whole: others' entries survive only if there are none. */
  lemma InitClobbers(stored: seq<Condition>, c: Condition)
    ensures Applied(stored, PatchFor([], c)) == Some([c])
    ensures (forall kind :: kind != c.kind ==> SameEntry(stored, [c], kind)) <==>
            (forall i :: 0 <= i < |stored| ==> stored[i].kind == c.kind)
  {
    forall i | 0 <= i < |stored| && stored[i].kind != c.kind ensures !SameEntry(stored, [c], stored[i].kind) {
      assert IndexOf(stored, stored[i].kind) <= i;
    }
  }

  /** The transition time moves exactly when the status of the kind's entry does. */
  lemma TransitionMoves(existing: seq<Condition>, i: nat, status: Status, generation: int, reason: string,
                        message: string, now: int)
    requires Unique(existing) && i < |existing| && now != existing[i].since
    ensures MakeCondition(existing, existing[i].kind, status, generation, reason, message, now).since ==
            existing[i].since
            <==> existing[i].status == status
  {
    IndexIs(existing, i);
  }
}
