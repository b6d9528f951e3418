/**
 The issue table as a value: the `HashMap<String, Issue>` the backend keeps,
 the changes its handlers make to it, and what a listing of it must contain.
 The store class in module Backend is specified by these functions.
 */
module IssueTable {
  import opened Issues

  type Table = map<string, Issue>

  /** The store invariant: every record is stored under its own identifier,
      and every identifier is one the UUID generator could have produced. */
  ghost predicate WellKeyed(m: Table) {
    forall k :: k in m ==> m[k].id == k && IsUuidV4Text(k)
  }

  /** The table after `report_issue` stores `payload` under `key`: the
      client's `id` is replaced by `key`, and an entry already under `key`
      (a generator collision) is overwritten, as `HashMap::insert` does. */
  function Inserted(m: Table, payload: Issue, key: string): (r: Table)
    ensures r.Keys == m.Keys + {key}
    ensures r[key].id == key
    ensures r[key].(id := payload.id) == payload
    ensures forall k :: k in m && k != key ==> r[k] == m[k]
    ensures key !in m ==> |r| == |m| + 1
  {
    m[key := payload.(id := key)]
  }

  /** The table after `update_issue_status` changed the status of the record
      under `key` to `status`; a table without `key` is returned unchanged. */
  function WithStatus(m: Table, key: string, status: string): (r: Table)
    ensures r.Keys == m.Keys
    ensures key in m ==> r[key].status == status && r[key].(status := m[key].status) == m[key]
    ensures forall k :: k in m && k != key ==> r[k] == m[k]
    ensures key !in m ==> r == m
  {
    if key in m then m[key := m[key].(status := status)] else m
  }

  /** The exact-key lookup of `get_issue_by_id`. */
  function Lookup(m: Table, key: string): (r: Reply)
    ensures r.Found? <==> key in m
    ensures r.Found? ==> r.issue == m[key]
  {
    if key in m then Found(m[key]) else NotFound
  }

  /** `r` lists the records of `m` as `issues.values().collect()` does, in
      some order: every stored record once, and nothing else. */
  ghost predicate IsListingOf(r: seq<Issue>, m: Table) {
    && |r| == |m|
    && (forall i :: 0 <= i < |r| ==> r[i] in m.Values)
    && (forall k :: k in m ==> m[k] in r)
    && (forall i, j :: 0 <= i < j < |r| ==> r[i] != r[j])
  }

  lemma InsertedKeepsWellKeyed(m: Table, payload: Issue, key: string)
    requires WellKeyed(m)
    requires IsUuidV4Text(key)
    ensures WellKeyed(Inserted(m, payload, key))
  {
  }

  lemma WithStatusKeepsWellKeyed(m: Table, key: string, status: string)
    requires WellKeyed(m)
    ensures WellKeyed(WithStatus(m, key, status))
  {
  }

  /** In a well-keyed table a lookup never answers a record filed under
      another identifier. */
  lemma LookupAnswersOwnId(m: Table, key: string)
    requires WellKeyed(m)
    ensures Lookup(m, key).Found? ==> Lookup(m, key).issue.id == key
  {
  }

  /** A text that is not UUID-shaped, such as `doesnotexist`, is never a key
      of a well-keyed table, so looking it up answers not-found. */
  lemma LookupOfNonUuidIsNotFound(m: Table, key: string)
    requires WellKeyed(m)
    requires !IsUuidV4Text(key)
    ensures Lookup(m, key) == NotFound
  {
  }

  /** A report followed by a lookup of the returned key answers the payload,
      with the server-chosen identifier in place of the client's. */
  lemma LookupAfterInserted(m: Table, payload: Issue, key: string, q: string)
    ensures Lookup(Inserted(m, payload, key), q)
         == if q == key then Found(payload.(id := key)) else Lookup(m, q)
  {
  }

  /** A status update followed by a lookup of the same key answers a record
      whose status is exactly the new one, whatever text it is. */
  lemma LookupAfterWithStatus(m: Table, key: string, status: string)
    requires key in m
    ensures Lookup(WithStatus(m, key, status), key) == Found(m[key].(status := status))
  {
  }

  /** In a well-keyed table no two keys hold the same record. */
  lemma WellKeyedIsInjective(m: Table, k1: string, k2: string)
    requires WellKeyed(m)
    requires k1 in m && k2 in m && m[k1] == m[k2]
    ensures k1 == k2
  {
  }

  /** A sequence without repetitions holds each of its elements once. */
  lemma {:induction false} DistinctSeqMultiset(r: seq<Issue>)
    requires forall i, j :: 0 <= i < j < |r| ==> r[i] != r[j]
    ensures forall x :: multiset(r)[x] == if x in r then 1 else 0
  {
    if r != [] {
      var t := r[1..];
      assert r == [r[0]] + t;
      DistinctSeqMultiset(t);
      assert r[0] !in t;
      assert multiset(r) == multiset{r[0]} + multiset(t);
    }
  }

  /** A listing holds each stored record exactly once: as a multiset it is
      the set of the table's values. */
  lemma ListingMultiset(r: seq<Issue>, m: Table)
    requires IsListingOf(r, m)
    ensures multiset(r) == multiset(m.Values)
  {
    DistinctSeqMultiset(r);
    forall x ensures multiset(r)[x] == multiset(m.Values)[x] {
      if x in m.Values {
        var k :| k in m && m[k] == x;
        assert x in r;
      }
    }
  }

  /** Two listings of one table differ at most in order. */
  lemma ListingsArePermutations(r1: seq<Issue>, r2: seq<Issue>, m: Table)
    requires IsListingOf(r1, m) && IsListingOf(r2, m)
    ensures multiset(r1) == multiset(r2)
  {
    ListingMultiset(r1, m);
    ListingMultiset(r2, m);
  }

  /** The table after reporting `payloads[i]` under `keys[i]`, in order. */
  function InsertedAll(m: Table, payloads: seq<Issue>, keys: seq<string>): (r: Table)
    requires |payloads| == |keys|
    ensures r.Keys == m.Keys + set k | k in keys
    decreases |keys|
  {
    if keys == [] then m
    else InsertedAll(Inserted(m, payloads[0], keys[0]), payloads[1..], keys[1..])
  }

  /** Reports under distinct fresh keys each add one record: the table grows
      by exactly the number of reports, and each report is stored under its
      key with that key as identifier. */
  lemma {:induction false} InsertedAllFresh(m: Table, payloads: seq<Issue>, keys: seq<string>)
    requires |payloads| == |keys|
    requires forall i, j :: 0 <= i < j < |keys| ==> keys[i] != keys[j]
    requires forall i :: 0 <= i < |keys| ==> keys[i] !in m
    ensures |InsertedAll(m, payloads, keys)| == |m| + |keys|
    ensures forall i :: 0 <= i < |keys| ==>
              InsertedAll(m, payloads, keys)[keys[i]] == payloads[i].(id := keys[i])
    ensures forall k :: k in m ==> InsertedAll(m, payloads, keys)[k] == m[k]
    decreases |keys|
  {
    if keys != [] {
      var m' := Inserted(m, payloads[0], keys[0]);
      var ps, ks := payloads[1..], keys[1..];
      forall i | 0 <= i < |ks| ensures ks[i] !in m' {
        assert ks[i] == keys[i + 1];
      }
      InsertedAllFresh(m', ps, ks);
      var r := InsertedAll(m, payloads, keys);
      assert r == InsertedAll(m', ps, ks);
      forall i | 0 <= i < |keys| ensures r[keys[i]] == payloads[i].(id := keys[i]) {
        if i > 0 {
          assert keys[i] == ks[i - 1] && payloads[i] == ps[i - 1];
        } else {
          assert keys[0] in m';
        }
      }
    }
  }

  /** After N reports under distinct keys into the empty table, every
      listing holds exactly N records. */
  lemma ListingAfterReports(payloads: seq<Issue>, keys: seq<string>, r: seq<Issue>)
    requires |payloads| == |keys|
    requires forall i, j :: 0 <= i < j < |keys| ==> keys[i] != keys[j]
    requires IsListingOf(r, InsertedAll(map[], payloads, keys))
    ensures |r| == |keys|
  {
    InsertedAllFresh(map[], payloads, keys);
  }
}
