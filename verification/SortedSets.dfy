/** Redis sorted sets and index windows. */
module SortedSets {

  datatype Entry = Entry(score: int, member: nat)

  /** Redis orders by score, then by member. */
  predicate Before(a: Entry, b: Entry) {
    a.score < b.score || (a.score == b.score && a.member < b.member)
  }

  ghost predicate Sorted(z: seq<Entry>) {
    forall i, j :: 0 <= i < j < |z| ==> Before(z[i], z[j])
  }

  ghost predicate DistinctMembers(z: seq<Entry>) {
    forall i, j :: 0 <= i < j < |z| ==> z[i].member != z[j].member
  }

  function Insert(z: seq<Entry>, e: Entry): seq<Entry> {
    if z == [] then [e]
    else if Before(e, z[0]) then [e] + z
    else [z[0]] + Insert(z[1..], e)
  }

  function RemoveMember(z: seq<Entry>, member: nat): seq<Entry> {
    if z == [] then []
    else (if z[0].member == member then [] else [z[0]]) + RemoveMember(z[1..], member)
  }

  /** ZADD: a member that is already there moves to its new score. */
  function ZAdd(z: seq<Entry>, e: Entry): seq<Entry> {
    Insert(RemoveMember(z, e.member), e)
  }

  lemma {:induction false} InsertSorts(z: seq<Entry>, e: Entry)
    requires Sorted(z) && DistinctMembers(z) && forall i :: 0 <= i < |z| ==> z[i].member != e.member
    ensures Sorted(Insert(z, e)) && DistinctMembers(Insert(z, e))
    ensures forall x :: x in Insert(z, e) <==> x in z || x == e
    ensures |Insert(z, e)| == |z| + 1
  {
    if z == [] || Before(e, z[0]) {
    } else {
      var rest := Insert(z[1..], e);
      InsertSorts(z[1..], e);
      forall i | 0 <= i < |rest| ensures Before(z[0], rest[i]) && rest[i].member != z[0].member {
        assert rest[i] in rest;
        if rest[i] != e { var k :| 0 <= k < |z[1..]| && z[1..][k] == rest[i]; assert z[k + 1] == rest[i]; }
      }
    }
  }

  lemma {:induction false} RemoveMemberMembers(z: seq<Entry>, member: nat, x: Entry)
    ensures x in RemoveMember(z, member) <==> x in z && x.member != member
  {
    if z == [] {
    } else {
      RemoveMemberMembers(z[1..], member, x);
      assert z == [z[0]] + z[1..];
    }
  }

  lemma {:induction false} RemoveMemberSorted(z: seq<Entry>, member: nat)
    requires Sorted(z) && DistinctMembers(z)
    ensures Sorted(RemoveMember(z, member)) && DistinctMembers(RemoveMember(z, member))
  {
    if z == [] {
    } else {
      var rest := RemoveMember(z[1..], member);
      RemoveMemberSorted(z[1..], member);
      forall i | 0 <= i < |rest| ensures Before(z[0], rest[i]) && rest[i].member != z[0].member {
        RemoveMemberMembers(z[1..], member, rest[i]);
        var k :| 0 <= k < |z[1..]| && z[1..][k] == rest[i];
        assert z[k + 1] == rest[i];
      }
    }
  }

  lemma RemoveMemberKeeps(z: seq<Entry>, member: nat)
    requires Sorted(z) && DistinctMembers(z)
    ensures var r := RemoveMember(z, member);
            && Sorted(r) && DistinctMembers(r)
            && (forall x :: x in r <==> x in z && x.member != member)
  {
    RemoveMemberSorted(z, member);
    forall x ensures x in RemoveMember(z, member) <==> x in z && x.member != member {
      RemoveMemberMembers(z, member, x);
    }
  }

  lemma {:induction false} RemoveAbsent(z: seq<Entry>, member: nat)
    requires forall i :: 0 <= i < |z| ==> z[i].member != member
    ensures RemoveMember(z, member) == z
  {
    if z == [] {
    } else {
      RemoveAbsent(z[1..], member);
    }
  }

  /** The index stays ordered, one entry per member, with the new entry in place of an old one. */
  lemma ZAddSorts(z: seq<Entry>, e: Entry)
    requires Sorted(z) && DistinctMembers(z)
    ensures Sorted(ZAdd(z, e)) && DistinctMembers(ZAdd(z, e))
    ensures forall x :: x in ZAdd(z, e) <==> x == e || (x in z && x.member != e.member)
    ensures (forall i :: 0 <= i < |z| ==> z[i].member != e.member) ==> |ZAdd(z, e)| == |z| + 1
  {
    RemoveMemberKeeps(z, e.member);
    var r := RemoveMember(z, e.member);
    forall i | 0 <= i < |r| ensures r[i].member != e.member { assert r[i] in r; }
    InsertSorts(r, e);
    if forall i :: 0 <= i < |z| ==> z[i].member != e.member { RemoveAbsent(z, e.member); }
  }

  /** ZRANGE start stop: negative indices count from the end. */
  function Window<T>(s: seq<T>, start: int, stop: int): seq<T> {
    var from := if start < 0 then start + |s| else start;
    var to := if stop < 0 then stop + |s| else stop;
    var first := if from < 0 then 0 else from;
    var last := if to >= |s| then |s| - 1 else to;
    if first > last || first >= |s| then [] else s[first..last + 1]
  }

  function Reverse<T>(s: seq<T>): (r: seq<T>)
    ensures |r| == |s|
    ensures forall i :: 0 <= i < |s| ==> r[i] == s[|s| - 1 - i]
  {
    if s == [] then [] else Reverse(s[1..]) + [s[0]]
  }

  /** At most `limit` elements after the first `offset`. */
  function Page<T>(s: seq<T>, offset: nat, limit: nat): seq<T> {
    if offset >= |s| then []
    else if offset + limit >= |s| then s[offset..]
    else s[offset..offset + limit]
  }

  /** The window arithmetic of the listing script is a page, except that a limit of 0 at offset 0 means everything. */
  lemma WindowIsPageIff<T>(s: seq<T>, offset: nat, limit: nat)
    ensures Window(s, offset, offset + limit - 1) == Page(s, offset, limit)
       <==> !(offset == 0 && limit == 0 && s != [])
  {
  }

  /** `n` pages of one size, one after the other. */
  function Pages<T>(s: seq<T>, from: nat, limit: nat, n: nat): seq<T>
    decreases n
  {
    if n == 0 then [] else Page(s, from, limit) + Pages(s, from + limit, limit, n - 1)
  }

  lemma PageAfterPage<T>(s: seq<T>, from: nat, a: nat, b: nat)
    ensures Page(s, from, a) + Page(s, from + a, b) == Page(s, from, a + b)
  {
  }

  function Times(n: nat, limit: nat): nat {
    if n == 0 then 0 else limit + Times(n - 1, limit)
  }

  lemma {:induction false} TimesIsProduct(n: nat, limit: nat)
    ensures Times(n, limit) == n * limit
  {
    if n == 0 {
    } else {
      TimesIsProduct(n - 1, limit);
    }
  }

  /** Consecutive pages neither skip nor repeat. */
  lemma {:induction false} PagesConcatenate<T>(s: seq<T>, from: nat, limit: nat, n: nat)
    ensures Pages(s, from, limit, n) == Page(s, from, Times(n, limit))
    decreases n
  {
    if n == 0 {
    } else {
      PagesConcatenate(s, from + limit, limit, n - 1);
      PageAfterPage(s, from, limit, Times(n - 1, limit));
    }
  }

  /** Enough of them give the whole. */
  lemma AllPages<T>(s: seq<T>, limit: nat, n: nat)
    requires n * limit >= |s|
    ensures Pages(s, 0, limit, n) == s
  {
    PagesConcatenate(s, 0, limit, n);
    TimesIsProduct(n, limit);
  }
}
