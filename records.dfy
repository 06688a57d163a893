/** Connection records, the pool's clock constants, the age test and the
    list operations the pool applies to one host's idle list or to the
    in-use list. */
module Records {

  /** A remote endpoint (host and port), compared by its text. */
  type Host = string

  /** A Date_t: milliseconds since the epoch. */
  type Date = int

  /** The identity of one DBClientConnection object (its address). */
  type ConnId = nat

  /** Date_t::max(): the largest signed 64-bit millisecond count. */
  const MaxDate: Date := 0x7FFF_FFFF_FFFF_FFFF

  /** Value of the last-used map for a host that needs no periodic sweep. */
  const NeverTooStale: Date := MaxDate

  /** kCleanUpInterval: five minutes, in milliseconds. */
  const CleanUpInterval: int := 5 * 60 * 1000

  /** kMaxConnectionAge: thirty seconds, in milliseconds. */
  const MaxConnectionAge: int := 30 * 1000

  /** A reading of the clock: not before the epoch, and far enough below
      Date_t::max() that adding the cleanup interval does not overflow. */
  predicate IsClockTime(t: Date)
  {
    0 <= t && t + CleanUpInterval <= MaxDate
  }

  /** ConnectionInfo: one connection (by identity), the endpoint it is
      connected to, and the time it was dialed. */
  datatype ConnectionInfo = ConnectionInfo(id: ConnId, host: Host, creationDate: Date)

  /** A std::list of records; order matters (front = most recent). */
  type ConnectionList = seq<ConnectionInfo>

  /** _shouldKeepConnection: a record is kept unless its expiration date
      (creation date plus the maximum age) is at or before `now`. */
  predicate ShouldKeepConnection(now: Date, c: ConnectionInfo)
  {
    var expirationDate := c.creationDate + MaxConnectionAge;
    !(expirationDate <= now)
  }

  /** The age test only ever turns from "keep" to "drop" as time goes on. */
  lemma ExpiryIsPermanent(c: ConnectionInfo, earlier: Date, later: Date)
    requires earlier <= later
    ensures ShouldKeepConnection(later, c) ==> ShouldKeepConnection(earlier, c)
    ensures !ShouldKeepConnection(earlier, c) ==> !ShouldKeepConnection(later, c)
  {
  }

  /** A record is kept exactly while it is younger than the maximum age;
      in particular a record dialed at `now` is kept at `now`. */
  lemma KeptIffYoungerThanMaxAge(c: ConnectionInfo, now: Date)
    ensures ShouldKeepConnection(now, c) <==> now - c.creationDate < MaxConnectionAge
    ensures c.creationDate == now ==> ShouldKeepConnection(now, c)
  {
  }

  /** The identities held by a list. */
  function IdSet(l: ConnectionList): (ids: set<ConnId>)
  {
    set c | c in l :: c.id
  }

  /** No identity occurs twice in the list. */
  predicate NoDupIds(l: ConnectionList)
  {
    forall i, j :: 0 <= i < j < |l| ==> l[i].id != l[j].id
  }

  /** What `_cleanUpOlderThan_inlock(now, list)` leaves in the list: the
      records `_shouldKeepConnection` keeps, in their original order.
      Defined from the back so that it follows a front-to-back scan. */
  function Survivors(l: ConnectionList, now: Date): (r: ConnectionList)
    ensures |r| <= |l|
    ensures forall c :: c in r ==> c in l && ShouldKeepConnection(now, c)
    decreases |l|
  {
    if l == [] then []
    else
      var last := l[|l| - 1];
      Survivors(l[..|l| - 1], now) + (if ShouldKeepConnection(now, last) then [last] else [])
  }

  /** A record survives the sweep exactly when it was in the list and the
      age test keeps it. */
  lemma {:induction false} SurvivorsMembership(l: ConnectionList, now: Date, c: ConnectionInfo)
    ensures c in Survivors(l, now) <==> c in l && ShouldKeepConnection(now, c)
    decreases |l|
  {
    if l != [] {
      var init := l[..|l| - 1];
      assert l == init + [l[|l| - 1]];
      SurvivorsMembership(init, now, c);
    }
  }

  /** The sweep keeps relative order: the survivors of a front part come
      before the survivors of a back part. */
  lemma {:induction false} SurvivorsAppend(a: ConnectionList, b: ConnectionList, now: Date)
    ensures Survivors(a + b, now) == Survivors(a, now) + Survivors(b, now)
    decreases |b|
  {
    if b != [] {
      var init := b[..|b| - 1];
      assert (a + b)[..|a + b| - 1] == a + init;
      SurvivorsAppend(a, init, now);
    } else {
      assert a + b == a;
    }
  }

  /** Sweeping a list whose front record is still young keeps that record
      at the front. */
  lemma SurvivorsKeepsLiveFront(c: ConnectionInfo, rest: ConnectionList, now: Date)
    requires ShouldKeepConnection(now, c)
    ensures Survivors([c] + rest, now) == [c] + Survivors(rest, now)
  {
    SurvivorsAppend([c], rest, now);
    assert [c][..0] == [];
  }

  /** The sweep empties a list exactly when every record in it is expired. */
  lemma {:induction false} SurvivorsEmptyIffAllExpired(l: ConnectionList, now: Date)
    ensures Survivors(l, now) == [] <==> forall c :: c in l ==> !ShouldKeepConnection(now, c)
  {
    forall c | c in l
      ensures Survivors(l, now) == [] ==> !ShouldKeepConnection(now, c)
    {
      SurvivorsMembership(l, now, c);
    }
    if Survivors(l, now) != [] {
      var c := Survivors(l, now)[0];
      assert c in Survivors(l, now);
    }
  }

  /** A list of young records is left as it is. */
  lemma {:induction false} SurvivorsOfLiveList(l: ConnectionList, now: Date)
    requires forall c :: c in l ==> ShouldKeepConnection(now, c)
    ensures Survivors(l, now) == l
    decreases |l|
  {
    if l != [] {
      var init := l[..|l| - 1];
      assert l == init + [l[|l| - 1]];
      SurvivorsOfLiveList(init, now);
    }
  }

  /** Sweeping twice at the same time is the same as sweeping once, and a
      later sweep subsumes an earlier one. */
  lemma {:induction false} SurvivorsComposes(l: ConnectionList, earlier: Date, later: Date)
    requires earlier <= later
    ensures Survivors(Survivors(l, earlier), later) == Survivors(l, later)
    decreases |l|
  {
    if l != [] {
      var init := l[..|l| - 1];
      var last := l[|l| - 1];
      SurvivorsComposes(init, earlier, later);
      var tail := if ShouldKeepConnection(earlier, last) then [last] else [];
      SurvivorsAppend(Survivors(init, earlier), tail, later);
      if ShouldKeepConnection(earlier, last) {
        assert Survivors(tail, later) == Survivors([][..0], later) + (if ShouldKeepConnection(later, last) then [last] else []);
      } else {
        ExpiryIsPermanent(last, earlier, later);
      }
    }
  }

  /** The sweep never introduces a duplicate and never a new identity. */
  lemma {:induction false} SurvivorsIds(l: ConnectionList, now: Date)
    ensures IdSet(Survivors(l, now)) <= IdSet(l)
    ensures NoDupIds(l) ==> NoDupIds(Survivors(l, now))
    decreases |l|
  {
    if l != [] {
      var init := l[..|l| - 1];
      var last := l[|l| - 1];
      assert l == init + [last];
      SurvivorsIds(init, now);
      var s := Survivors(init, now);
      if NoDupIds(l) && ShouldKeepConnection(now, last) {
        assert NoDupIds(init);
        forall i | 0 <= i < |s| ensures s[i].id != last.id {
          assert s[i] in s;
          SurvivorsMembership(init, now, s[i]);
          var k :| 0 <= k < |init| && init[k] == s[i];
          assert l[k] == s[i] && l[|l| - 1] == last;
        }
        assert Survivors(l, now) == s + [last];
      }
    }
  }

  /** Popping the front of a duplicate-free list leaves a duplicate-free
      tail of records from the list, none with the front's identity. */
  lemma FrontLeavesTail(l: ConnectionList)
    requires l != [] && NoDupIds(l)
    ensures NoDupIds(l[1..])
    ensures forall d :: d in l[1..] ==> d in l
    ensures l[0].id !in IdSet(l[1..])
  {
    var tail := l[1..];
    forall x | x in IdSet(tail) ensures x != l[0].id {
      var d :| d in tail && d.id == x;
      var k :| 0 <= k < |tail| && tail[k] == d;
      assert l[k + 1] == d;
    }
  }

  /** Pushing a record with a new identity onto the front of a
      duplicate-free list adds exactly that identity and no duplicate. */
  lemma PushFrontIds(c: ConnectionInfo, l: ConnectionList)
    requires NoDupIds(l) && c.id !in IdSet(l)
    ensures NoDupIds([c] + l)
    ensures IdSet([c] + l) == {c.id} + IdSet(l)
  {
    var u := [c] + l;
    forall x | x in IdSet(u) ensures x in {c.id} + IdSet(l) {
      var d :| d in u && d.id == x;
    }
    assert c in u;
    forall x | x in IdSet(l) ensures x in IdSet(u) {
      var d :| d in l && d.id == x;
      assert d in u;
    }
    forall i, j | 0 <= i < j < |u| ensures u[i].id != u[j].id {
      if i == 0 {
        assert u[j] in l;
      } else {
        assert u[i] == l[i - 1] && u[j] == l[j - 1];
      }
    }
  }

  /** Position of a record in a list: its first occurrence. */
  function IndexOf(l: ConnectionList, c: ConnectionInfo): (i: nat)
    requires c in l
    ensures i < |l| && l[i] == c && c !in l[..i]
  {
    if l[0] == c then 0 else 1 + IndexOf(l[1..], c)
  }

  /** std::list::erase at the position of `c`: the list without that one
      element, the rest in order. */
  function Erase(l: ConnectionList, c: ConnectionInfo): (r: ConnectionList)
    requires c in l
    ensures |r| == |l| - 1
    ensures multiset(r) == multiset(l) - multiset{c}
  {
    var i := IndexOf(l, c);
    assert l == l[..i] + [c] + l[i + 1..];
    l[..i] + l[i + 1..]
  }

  /** Erasing one record of a duplicate-free list removes exactly its
      identity and keeps every other record. */
  lemma EraseRemovesExactly(l: ConnectionList, c: ConnectionInfo)
    requires c in l && NoDupIds(l)
    ensures NoDupIds(Erase(l, c))
    ensures IdSet(Erase(l, c)) == IdSet(l) - {c.id}
    ensures forall d :: d in Erase(l, c) <==> d in l && d != c
  {
    var i := IndexOf(l, c);
    var r := Erase(l, c);
    assert r == l[..i] + l[i + 1..];
    forall j | 0 <= j < |r| ensures r[j] == l[if j < i then j else j + 1] {}
    forall d | d in l && d != c ensures d in r {
      var k :| 0 <= k < |l| && l[k] == d;
      assert k != i;
      assert r[if k < i then k else k - 1] == d;
    }
    forall d | d in r ensures d in l && d.id != c.id {
      var k :| 0 <= k < |r| && r[k] == d;
      var m := if k < i then k else k + 1;
      assert l[m] == d && m != i;
    }
    forall x | x in IdSet(l) - {c.id} ensures x in IdSet(r) {
      var d :| d in l && d.id == x;
      assert d in r;
    }
  }
}
