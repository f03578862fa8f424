/** The drop rules of DBImpl::DoCompactionWork, and what they do to what can be read.

    A compaction replaces the entries of its inputs, in merged order, by those it keeps; everything
    else in the database (`rest`) stays. Readers are at the oldest live snapshot or later. */
module DropRules {
  import opened Options
  import opened InternalKeys
  import opened Versions

  // Compaction::IsBaseLevelForKey without its memory: no file below the output level covers the key.
  ghost predicate BaseLevel(v: Version, level: nat, user: UserKey) {
    forall l, f :: level + 2 <= l < |v.files| && f in v.files[l] ==> !CoversUser(f, user)
  }

  // Rule (A): hidden by a newer entry for the same user key that every reader sees.
  ghost predicate Shadowed(es: seq<Entry>, i: nat, oldest: nat)
    requires i < |es|
  {
    exists j :: 0 <= j < i && es[j].key.user == es[i].key.user && es[j].key.sequence <= oldest
  }

  // The second rule: a deletion marker every reader sees, with nothing below to delete.
  ghost predicate Obsolete(es: seq<Entry>, i: nat, oldest: nat, v: Version, level: nat)
    requires i < |es|
  {
    es[i].key.kind == Deletion && es[i].key.sequence <= oldest && BaseLevel(v, level, es[i].key.user)
  }

  ghost predicate Dropped(es: seq<Entry>, i: nat, oldest: nat, v: Version, level: nat)
    requires i < |es|
  {
    Shadowed(es, i, oldest) || Obsolete(es, i, oldest, v, level)
  }

  // What is kept of the first n entries.
  ghost function Kept(es: seq<Entry>, n: nat, oldest: nat, v: Version, level: nat): seq<Entry>
    requires n <= |es|
  {
    if n == 0 then []
    else Kept(es, n - 1, oldest, v, level) + if Dropped(es, n - 1, oldest, v, level) then [] else [es[n - 1]]
  }

  lemma {:induction false} InKept(es: seq<Entry>, n: nat, oldest: nat, v: Version, level: nat, e: Entry)
    requires n <= |es|
    ensures e in Kept(es, n, oldest, v, level) <==> exists i :: 0 <= i < n && es[i] == e && !Dropped(es, i, oldest, v, level)
  {
    if n > 0 {
      InKept(es, n - 1, oldest, v, level, e);
    }
  }

  lemma {:induction false} KeptSorted(es: seq<Entry>, n: nat, oldest: nat, v: Version, level: nat)
    requires n <= |es| && Sorted(es)
    ensures Sorted(Kept(es, n, oldest, v, level))
    ensures forall k :: 0 <= k < |Kept(es, n, oldest, v, level)| && n < |es| ==> Kept(es, n, oldest, v, level)[k].key.Before(es[n].key)
  {
    if n > 0 {
      KeptSorted(es, n - 1, oldest, v, level);
    }
  }

  ghost function KeptSet(es: seq<Entry>, oldest: nat, v: Version, level: nat): set<Entry> {
    Elements(Kept(es, |es|, oldest, v, level))
  }

  lemma KeptOrNot(es: seq<Entry>, oldest: nat, v: Version, level: nat, i: nat)
    requires Sorted(es) && i < |es|
    ensures es[i] in KeptSet(es, oldest, v, level) <==> !Dropped(es, i, oldest, v, level)
    ensures KeptSet(es, oldest, v, level) <= Elements(es)
  {
    forall e
      ensures e in KeptSet(es, oldest, v, level) <==>
              exists k :: 0 <= k < |es| && es[k] == e && !Dropped(es, k, oldest, v, level)
    {
      InKept(es, |es|, oldest, v, level, e);
    }
  }

  // A dropped marker that covered something: an older value for its key stays elsewhere, it is the
  // newest such entry, and nothing that every reader sees and that stays is newer than the marker.
  ghost predicate Uncovers(es: seq<Entry>, i: nat, oldest: nat, v: Version, level: nat, rest: set<Entry>, g: Entry)
    requires i < |es|
  {
    && Obsolete(es, i, oldest, v, level) && !Shadowed(es, i, oldest)
    && g in rest && g.key.user == es[i].key.user && g.key.kind == Put && Newer(es[i], g)
    && (forall r :: r in rest && r.key.user == es[i].key.user && Newer(es[i], r) ==> !Newer(r, g))
    && (forall r :: r in rest && r.key.user == es[i].key.user && Newer(r, es[i]) ==> r.key.sequence > oldest)
  }

  ghost predicate SameViews(before: set<Entry>, after: set<Entry>, oldest: nat) {
    forall user, snapshot :: snapshot >= oldest ==> Read(before, user, snapshot) == Read(after, user, snapshot)
  }

  lemma NoneVisible(es: set<Entry>, user: UserKey, snapshot: nat)
    requires forall e :: e in es ==> !Visible(e, user, snapshot)
    ensures Read(es, user, snapshot) == None
  {
  }

  lemma MarkerShadows(es: seq<Entry>, oldest: nat, i: nat, k: nat)
    requires i < |es| && es[i].key.sequence <= oldest
    ensures i < k < |es| && es[k].key.user == es[i].key.user ==> Shadowed(es, k, oldest)
  {
  }

  lemma NewestNotShadowed(es: seq<Entry>, oldest: nat, rest: set<Entry>, i: nat, snapshot: nat)
    requires Sorted(es) && i < |es| && snapshot >= oldest
    requires Newest(rest + Elements(es), es[i], es[i].key.user, snapshot)
    ensures !Shadowed(es, i, oldest)
  {
    forall j | 0 <= j < i && es[j].key.user == es[i].key.user
      ensures es[j].key.sequence > oldest
    {
      assert es[j] in rest + Elements(es);
    }
  }

  // Nothing kept is an older version of the key of a dropped marker.
  lemma MarkerShadowsRest(es: seq<Entry>, oldest: nat, v: Version, level: nat, i: nat, e: Entry)
    requires Sorted(es) && i < |es| && Obsolete(es, i, oldest, v, level) && !Shadowed(es, i, oldest)
    requires e in KeptSet(es, oldest, v, level) && e.key.user == es[i].key.user
    ensures Newer(e, es[i]) && e.key.sequence > oldest
  {
    InKept(es, |es|, oldest, v, level, e);
    var k :| 0 <= k < |es| && es[k] == e && !Dropped(es, k, oldest, v, level);
    MarkerShadows(es, oldest, i, k);
  }

  lemma ViewKept(es: seq<Entry>, oldest: nat, v: Version, level: nat, rest: set<Entry>, user: UserKey, snapshot: nat)
    requires Sorted(es) && DistinctKeys(rest + Elements(es)) && snapshot >= oldest
    requires forall i, g :: 0 <= i < |es| ==> !Uncovers(es, i, oldest, v, level, rest, g)
    ensures Read(rest + Elements(es), user, snapshot) == Read(rest + KeptSet(es, oldest, v, level), user, snapshot)
  {
    var kept := KeptSet(es, oldest, v, level);
    var before, after := rest + Elements(es), rest + kept;
    if es != [] {
      KeptOrNot(es, oldest, v, level, 0);
    }
    if e :| e in before && Visible(e, user, snapshot) {
      var n := NewestExists(before, e, user, snapshot);
      ReadIsNewest(before, n, user, snapshot);
      if n in after {
        ReadIsNewest(after, n, user, snapshot);
      } else {
        var i :| 0 <= i < |es| && es[i] == n;
        KeptOrNot(es, oldest, v, level, i);
        NewestNotShadowed(es, oldest, rest, i, snapshot);
        DroppedMarkerStaysHidden(es, oldest, v, level, rest, i, snapshot);
      }
    } else {
      NoneVisible(before, user, snapshot);
      NoneVisible(after, user, snapshot);
    }
  }

  // Where a dropped marker was the newest visible entry, a reader still finds nothing.
  lemma DroppedMarkerStaysHidden(es: seq<Entry>, oldest: nat, v: Version, level: nat, rest: set<Entry>, i: nat, snapshot: nat)
    requires Sorted(es) && DistinctKeys(rest + Elements(es)) && snapshot >= oldest && i < |es|
    requires Obsolete(es, i, oldest, v, level) && !Shadowed(es, i, oldest) && es[i] !in rest
    requires Newest(rest + Elements(es), es[i], es[i].key.user, snapshot)
    requires forall g :: !Uncovers(es, i, oldest, v, level, rest, g)
    ensures Read(rest + KeptSet(es, oldest, v, level), es[i].key.user, snapshot) == None
  {
    var user, kept := es[i].key.user, KeptSet(es, oldest, v, level);
    var after := rest + kept;
    KeptOrNot(es, oldest, v, level, i);
    if e :| e in after && Visible(e, user, snapshot) {
      var m := NewestExists(after, e, user, snapshot);
      ReadIsNewest(after, m, user, snapshot);
      assert m in rest + Elements(es);
      if m in kept {
        MarkerShadowsRest(es, oldest, v, level, i, m);
      }
      OlderIsNewer(es[i], m);
      assert !Uncovers(es, i, oldest, v, level, rest, m);
    } else {
      NoneVisible(after, user, snapshot);
    }
  }

  lemma OlderIsNewer(a: Entry, b: Entry)
    requires a.key.user == b.key.user && !Newer(b, a) && a.key != b.key
    ensures Newer(a, b)
  {
    if a.key.Tag() == b.key.Tag() {
      TagDeterminesKey(a.key, b.key);
    }
  }

  // ... and where it covered something, a reader at the oldest snapshot now finds that.
  lemma UncoveredIsRead(es: seq<Entry>, oldest: nat, v: Version, level: nat, rest: set<Entry>, i: nat, g: Entry)
    requires Sorted(es) && DistinctKeys(rest + Elements(es)) && rest !! Elements(es)
    requires i < |es| && Uncovers(es, i, oldest, v, level, rest, g)
    ensures Read(rest + Elements(es), es[i].key.user, oldest) == None
    ensures Read(rest + KeptSet(es, oldest, v, level), es[i].key.user, oldest) == Some(g.value)
  {
    var user, kept := es[i].key.user, KeptSet(es, oldest, v, level);
    KeptOrNot(es, oldest, v, level, i);
    assert es[i] in Elements(es);
    forall x | x in rest + Elements(es) && Visible(x, user, oldest)
      ensures !Newer(x, es[i])
    {
      if x in Elements(es) {
        var j :| 0 <= j < |es| && es[j] == x;
      }
    }
    ReadIsNewest(rest + Elements(es), es[i], user, oldest);
    forall x | x in rest + kept && Visible(x, user, oldest)
      ensures !Newer(x, g)
    {
      if x in kept {
        MarkerShadowsRest(es, oldest, v, level, i, x);
      } else if !Newer(x, es[i]) {
        OlderIsNewer(es[i], x);
      }
    }
    ReadIsNewest(rest + kept, g, user, oldest);
  }

  // The drop rules change no view at or after the oldest snapshot exactly when no dropped marker
  // covered an older value that stays.
  lemma ViewsKeptExactlyWhen(es: seq<Entry>, oldest: nat, v: Version, level: nat, rest: set<Entry>)
    requires Sorted(es) && DistinctKeys(rest + Elements(es)) && rest !! Elements(es)
    ensures SameViews(rest + Elements(es), rest + KeptSet(es, oldest, v, level), oldest) <==>
            forall i, g :: 0 <= i < |es| ==> !Uncovers(es, i, oldest, v, level, rest, g)
  {
    if forall i, g :: 0 <= i < |es| ==> !Uncovers(es, i, oldest, v, level, rest, g) {
      forall user, snapshot: nat | snapshot >= oldest
        ensures Read(rest + Elements(es), user, snapshot) == Read(rest + KeptSet(es, oldest, v, level), user, snapshot)
      {
        ViewKept(es, oldest, v, level, rest, user, snapshot);
      }
    } else {
      var i, g :| 0 <= i < |es| && Uncovers(es, i, oldest, v, level, rest, g);
      UncoveredIsRead(es, oldest, v, level, rest, i, g);
    }
  }
}
