/** Internal keys, entries, and what a read at a snapshot means.

    Every other module states its results in terms of `Read`: the value of the newest entry of a
    user key whose sequence number does not exceed the snapshot, over a flat set of entries. */
module InternalKeys {
  import opened Options

  // User keys are byte strings under an arbitrary total order chosen by the user comparator. There
  // are countably many byte strings, and every countable total order embeds in the real line, so a
  // key is represented by its place on that line. The model compares keys and does nothing else.
  type UserKey = real

  // kMaxSequenceNumber: eight bits of the packed word are left for the type.
  const MAX_SEQUENCE: nat := 0xFF_FFFF_FFFF_FFFF

  datatype ValueType = Deletion | Put

  datatype InternalKey = InternalKey(user: UserKey, sequence: nat, kind: ValueType) {
    // PackSequenceAndType
    function Tag(): nat {
      256 * sequence + if kind == Put then 1 else 0
    }

    // InternalKeyComparator: Compare(this, other) < 0
    predicate Before(other: InternalKey) {
      user < other.user || (user == other.user && Tag() > other.Tag())
    }
  }

  datatype Entry = Entry(key: InternalKey, value: string)

  // LookupKey: the first internal key at which an entry of `user` visible at `snapshot` can stand.
  function LookupKey(user: UserKey, snapshot: nat): InternalKey {
    InternalKey(user, snapshot, Put)
  }

  lemma TagDeterminesKey(a: InternalKey, b: InternalKey)
    requires a.user == b.user && a.Tag() == b.Tag()
    ensures a == b
  {
    assert a.Tag() % 256 == b.Tag() % 256;
  }

  // The order on internal keys is total: two keys that neither precede the other are one key.
  lemma Trichotomy(a: InternalKey, b: InternalKey)
    ensures a.Before(b) || b.Before(a) || a == b
  {
    if a.user == b.user && a.Tag() == b.Tag() {
      TagDeterminesKey(a, b);
    }
  }

  // Among the entries of one user key, those at or after the lookup key are exactly the visible ones.
  lemma LookupKeySplitsVersions(k: InternalKey, snapshot: nat)
    ensures k.Before(LookupKey(k.user, snapshot)) <==> k.sequence > snapshot
  {
  }

  ghost predicate Sorted(es: seq<Entry>) {
    forall i, j :: 0 <= i < j < |es| ==> es[i].key.Before(es[j].key)
  }

  ghost function Elements(es: seq<Entry>): set<Entry> {
    set i | 0 <= i < |es| :: es[i]
  }

  predicate Visible(e: Entry, user: UserKey, snapshot: nat) {
    e.key.user == user && e.key.sequence <= snapshot
  }

  predicate Newer(a: Entry, b: Entry) {
    a.key.Tag() > b.key.Tag()
  }

  ghost predicate DistinctKeys(es: set<Entry>) {
    forall a, b :: a in es && b in es && a.key == b.key ==> a == b
  }

  ghost predicate Newest(es: set<Entry>, e: Entry, user: UserKey, snapshot: nat) {
    && e in es && Visible(e, user, snapshot)
    && forall x :: x in es && Visible(x, user, snapshot) ==> !Newer(x, e)
  }

  function Outcome(e: Entry): Option<string> {
    if e.key.kind == Put then Some(e.value) else None
  }

  // The value of `user` at `snapshot`, None when it is absent or deleted.
  ghost function Read(es: set<Entry>, user: UserKey, snapshot: nat): Option<string> {
    if exists e :: Newest(es, e, user, snapshot)
    then var e :| Newest(es, e, user, snapshot); Outcome(e)
    else None
  }

  lemma ReadIsNewest(es: set<Entry>, e: Entry, user: UserKey, snapshot: nat)
    requires DistinctKeys(es) && Newest(es, e, user, snapshot)
    ensures Read(es, user, snapshot) == Outcome(e)
  {
    forall x | Newest(es, x, user, snapshot) ensures x == e {
      TagDeterminesKey(x.key, e.key);
    }
  }

  lemma {:induction false} NewestExists(es: set<Entry>, e: Entry, user: UserKey, snapshot: nat)
    returns (n: Entry)
    requires e in es && Visible(e, user, snapshot)
    ensures Newest(es, n, user, snapshot) && !Newer(e, n)
    decreases es
  {
    if x :| x in es && Visible(x, user, snapshot) && Newer(x, e) {
      n := NewestExists(es - {e}, x, user, snapshot);
    } else {
      n := e;
    }
  }

  // An older layer is read only when a newer one has nothing visible for the key.
  lemma ReadLayers(upper: set<Entry>, lower: set<Entry>, user: UserKey, snapshot: nat)
    requires DistinctKeys(upper + lower)
    requires forall a, b :: a in upper && b in lower && a.key.user == b.key.user == user ==> Newer(a, b)
    ensures Read(upper + lower, user, snapshot) ==
            if exists e :: e in upper && Visible(e, user, snapshot)
            then Read(upper, user, snapshot) else Read(lower, user, snapshot)
  {
    if e :| e in upper && Visible(e, user, snapshot) {
      var n := NewestExists(upper, e, user, snapshot);
      ReadIsNewest(upper, n, user, snapshot);
      ReadIsNewest(upper + lower, n, user, snapshot);
    } else if e :| e in lower && Visible(e, user, snapshot) {
      var n := NewestExists(lower, e, user, snapshot);
      ReadIsNewest(lower, n, user, snapshot);
      ReadIsNewest(upper + lower, n, user, snapshot);
    }
  }

  // In a sorted run the newest visible entry of a key is the first visible one.
  lemma FirstVisibleIsNewest(es: seq<Entry>, i: nat, user: UserKey, snapshot: nat)
    requires Sorted(es) && i < |es| && Visible(es[i], user, snapshot)
    requires forall j :: 0 <= j < i ==> !Visible(es[j], user, snapshot)
    ensures Newest(Elements(es), es[i], user, snapshot)
    ensures Read(Elements(es), user, snapshot) == Outcome(es[i])
  {
    SortedIsDistinct(es);
    ReadIsNewest(Elements(es), es[i], user, snapshot);
  }

  lemma SortedIsDistinct(es: seq<Entry>)
    requires Sorted(es)
    ensures DistinctKeys(Elements(es))
  {
  }
}
