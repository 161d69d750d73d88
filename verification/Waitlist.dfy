/**
 The waiting list of one event: rows ordered by (joined_at, waitlist_seq), positions derived on read
 (backend/src/registrations/waitlist/position.ts), and the set of entries a number of free places reaches.
 */
module Waitlist {
  import opened Wrappers

  type UserId = nat

  datatype RowStatus = Registered | Waitlisted | Withdrawn | Removed | Cancelled

  /** joined_at and waitlist_seq of a row that has waited; a promoted or removed row keeps them. */
  datatype Place = Place(joinedAt: int, ticket: nat)

  datatype Row = Row(status: RowStatus, place: Option<Place>)

  type Rows = map<UserId, Row>

  predicate Before(p: Place, q: Place) {
    p.joinedAt < q.joinedAt || (p.joinedAt == q.joinedAt && p.ticket < q.ticket)
  }

  function Waiting(rows: Rows): set<UserId> {
    set u | u in rows && rows[u].status == Waitlisted
  }

  /** The attendees that count against the limit. */
  function Holders(rows: Rows): set<UserId> {
    set u | u in rows && rows[u].status == Registered
  }

  predicate IsAhead(rows: Rows, o: UserId, u: UserId) {
    && o in rows && rows[o].place.Some?
    && u in rows && rows[u].place.Some?
    && Before(rows[o].place.value, rows[u].place.value)
  }

  function Ahead(rows: Rows, u: UserId): set<UserId> {
    set o | o in Waiting(rows) && IsAhead(rows, o, u)
  }

  function Position(rows: Rows, u: UserId): nat {
    1 + |Ahead(rows, u)|
  }

  predicate TicketsDiffer(rows: Rows, u: UserId, v: UserId) {
    u in rows && v in rows && rows[u].place.Some? && rows[v].place.Some?
    && rows[u].place.value.ticket != rows[v].place.value.ticket
  }

  /** Waiting rows carry a place, and no two of them the same ticket (the sequence is never reused). */
  ghost predicate QueueOk(rows: Rows) {
    && (forall u :: u in Waiting(rows) ==> rows[u].place.Some?)
    && forall u, v {:trigger TicketsDiffer(rows, u, v)} ::
         u in Waiting(rows) && v in Waiting(rows) && u != v ==> TicketsDiffer(rows, u, v)
  }

  ghost predicate TicketsUpTo(rows: Rows, last: nat) {
    forall u :: u in Waiting(rows) ==> rows[u].place.Some? && rows[u].place.value.ticket <= last
  }

  /** The waiting entries a number of free places reaches, by position. */
  function Front(rows: Rows, free: int): set<UserId> {
    set u | u in Waiting(rows) && Position(rows, u) <= free
  }

  /** What promotion must achieve: exactly the entries whose position is within the free places become Registered. */
  function Promoted(rows: Rows, free: int): Rows {
    map u | u in rows :: if u in Front(rows, free) then rows[u].(status := Registered) else rows[u]
  }

  // ------------------------------------------------------------------ the order is total, so positions count

  lemma AheadIsTotal(rows: Rows, u: UserId, v: UserId)
    requires QueueOk(rows) && u in Waiting(rows) && v in Waiting(rows) && u != v
    ensures IsAhead(rows, u, v) <==> !IsAhead(rows, v, u)
  {
    assert TicketsDiffer(rows, u, v);
  }

  lemma AheadHasSmallerPosition(rows: Rows, u: UserId, v: UserId)
    requires QueueOk(rows) && u in Waiting(rows) && v in Waiting(rows) && IsAhead(rows, u, v)
    ensures Ahead(rows, u) + {u} <= Ahead(rows, v)
    ensures Position(rows, u) < Position(rows, v)
  {
    var smaller := Ahead(rows, u) + {u};
    assert u !in Ahead(rows, u);
    SubsetSize(smaller, Ahead(rows, v));
  }

  lemma {:induction false} SubsetSize<T>(a: set<T>, b: set<T>)
    requires a <= b
    ensures |a| <= |b|
  {
    assert b == a + (b - a);
  }

  /** Nobody in w is ahead of u. */
  ghost predicate IsFirst(rows: Rows, w: set<UserId>, u: UserId) {
    u in w && forall o :: o in w ==> !IsAhead(rows, o, u)
  }

  lemma {:induction false} FirstExists(rows: Rows, w: set<UserId>) returns (u: UserId)
    requires w != {}
    ensures IsFirst(rows, w, u)
    decreases w
  {
    var x :| x in w;
    var ahead := set o | o in w && IsAhead(rows, o, x);
    assert forall o :: o in w && IsAhead(rows, o, x) ==> o in ahead;
    if ahead == {} {
      u := x;
    } else {
      assert x !in ahead;
      u := FirstExists(rows, ahead);
      assert forall o :: o in w && IsAhead(rows, o, u) ==> IsAhead(rows, o, x);
    }
  }

  /** The first entry beyond a front of k entries has position k + 1, and no other entry has it. */
  lemma NextInLine(rows: Rows, k: nat, next: UserId)
    requires QueueOk(rows) && |Front(rows, k)| == k
    requires IsFirst(rows, Waiting(rows) - Front(rows, k), next)
    ensures Ahead(rows, next) == Front(rows, k)
    ensures Front(rows, k + 1) == Front(rows, k) + {next}
  {
    forall u | u in Front(rows, k) ensures u in Ahead(rows, next) {
      if !IsAhead(rows, u, next) {
        AheadIsTotal(rows, u, next);
        AheadHasSmallerPosition(rows, next, u);
      }
    }
    forall u | u in Waiting(rows) - Front(rows, k) && u != next ensures Position(rows, u) > k + 1 {
      AheadIsTotal(rows, u, next);
      AheadHasSmallerPosition(rows, next, u);
    }
  }

  lemma StrictSubsetSize<T>(a: set<T>, b: set<T>, x: T)
    requires a <= b && x in b && x !in a
    ensures |a| < |b|
  {
    SubsetSize(a + {x}, b);
  }

  /** Positions are gapless: k free places reach exactly k entries, or all of them. */
  lemma {:induction false} FrontSize(rows: Rows, k: nat)
    requires QueueOk(rows)
    ensures |Front(rows, k)| == if k <= |Waiting(rows)| then k else |Waiting(rows)|
  {
    if k == 0 {
      assert Front(rows, 0) == {};
    } else {
      FrontSize(rows, k - 1);
      FrontGrows(rows, k - 1);
    }
  }

  lemma FrontGrows(rows: Rows, k: nat)
    requires QueueOk(rows)
    requires |Front(rows, k)| == if k <= |Waiting(rows)| then k else |Waiting(rows)|
    ensures |Front(rows, k + 1)| == if k < |Waiting(rows)| then k + 1 else |Waiting(rows)|
  {
    var front, rest := Front(rows, k), Waiting(rows) - Front(rows, k);
    if rest == {} {
      assert front == Waiting(rows) == Front(rows, k + 1);
    } else {
      var next := FirstExists(rows, rest);
      StrictSubsetSize(front, Waiting(rows), next);
      NextInLine(rows, k, next);
      assert next !in front;
    }
  }

  /** Whoever is beyond a front of k entries has all k of them ahead. */
  lemma FrontIsAhead(rows: Rows, k: nat, u: UserId)
    requires QueueOk(rows) && u in Waiting(rows) - Front(rows, k)
    ensures Front(rows, k) <= Ahead(rows, u) && |Front(rows, k)| == k
  {
    forall o | o in Front(rows, k) ensures o in Ahead(rows, u) {
      if !IsAhead(rows, o, u) {
        AheadIsTotal(rows, o, u);
        AheadHasSmallerPosition(rows, u, o);
      }
    }
    FrontSize(rows, k);
    StrictSubsetSize(Front(rows, k), Waiting(rows), u);
  }

  // ------------------------------------------------------------------ promotion

  lemma PromotedSets(rows: Rows, free: int)
    ensures Holders(Promoted(rows, free)) == Holders(rows) + Front(rows, free)
    ensures Waiting(Promoted(rows, free)) == Waiting(rows) - Front(rows, free)
    ensures Holders(rows) !! Front(rows, free)
  {
  }

  /** Promotion moves exactly as many entries as there are free places, or empties the list. */
  lemma PromotedSizes(rows: Rows, free: nat)
    requires QueueOk(rows)
    ensures var moved := if free <= |Waiting(rows)| then free else |Waiting(rows)|;
      && |Holders(Promoted(rows, free))| == |Holders(rows)| + moved
      && |Waiting(Promoted(rows, free))| == |Waiting(rows)| - moved
  {
    PromotedSets(rows, free);
    FrontSize(rows, free);
    var front := Front(rows, free);
    assert |Holders(rows) + front| == |Holders(rows)| + |front|;
    assert Waiting(rows) == front + (Waiting(rows) - front);
  }

  /** A list that only lost entries keeps its order. */
  lemma QueueShrinks(rows: Rows, other: Rows)
    requires QueueOk(rows) && Waiting(other) <= Waiting(rows)
    requires forall u :: u in Waiting(other) ==> other[u].place == rows[u].place
    ensures QueueOk(other)
    ensures forall last :: TicketsUpTo(rows, last) ==> TicketsUpTo(other, last)
  {
    forall u, v | u in Waiting(other) && v in Waiting(other) && u != v ensures TicketsDiffer(other, u, v) {
      assert TicketsDiffer(rows, u, v);
    }
  }

  /** Filling a list up to a limit: never above it, and exactly to it while someone still waits. */
  lemma FilledUp(rows: Rows, free: nat, limit: int)
    requires QueueOk(rows) && |Holders(rows)| + free == limit
    ensures QueueOk(Promoted(rows, free)) && Waiting(Promoted(rows, free)) <= Waiting(rows)
    ensures forall last :: TicketsUpTo(rows, last) ==> TicketsUpTo(Promoted(rows, free), last)
    ensures |Holders(Promoted(rows, free))| <= limit
    ensures Waiting(Promoted(rows, free)) != {} ==> |Holders(Promoted(rows, free))| == limit
  {
    var filled := Promoted(rows, free);
    assert |Holders(filled)| <= limit && (|Waiting(filled)| > 0 ==> |Holders(filled)| == limit) by {
      PromotedSizes(rows, free);
    }
    PromotedSets(rows, free);
    QueueShrinks(rows, filled);
  }

  lemma RowUpdateSets(rows: Rows, u: UserId, row: Row)
    ensures Holders(rows[u := row]) == if row.status == Registered then Holders(rows) + {u} else Holders(rows) - {u}
    ensures Waiting(rows[u := row]) == if row.status == Waitlisted then Waiting(rows) + {u} else Waiting(rows) - {u}
  {
  }

  /** A new entry with a fresh ticket. */
  lemma QueueGrows(rows: Rows, u: UserId, joinedAt: int, last: nat)
    requires QueueOk(rows) && TicketsUpTo(rows, last) && u !in Holders(rows) + Waiting(rows)
    ensures var joined := rows[u := Row(Waitlisted, Some(Place(joinedAt, last + 1)))];
      QueueOk(joined) && TicketsUpTo(joined, last + 1) && Holders(joined) == Holders(rows)
  {
    var joined := rows[u := Row(Waitlisted, Some(Place(joinedAt, last + 1)))];
    RowUpdateSets(rows, u, joined[u]);
    forall v, o | v in Waiting(joined) && o in Waiting(joined) && v != o ensures TicketsDiffer(joined, v, o) {
      assert v != u && o != u ==> TicketsDiffer(rows, v, o);
    }
  }

  /** Promoting k more than the j who emptied the list promotes nobody else. */
  lemma NobodyLeft(rows: Rows, j: nat, k: int)
    requires j == k || (k <= 0 && j == 0) || (j <= k && Front(rows, j) == Waiting(rows))
    ensures Promoted(rows, j) == Promoted(rows, k)
  {
    assert Front(rows, j) == Front(rows, k);
  }

  /** One promotion of the first waiting entry extends the front by one. */
  lemma PromoteOne(start: Rows, k: nat, next: UserId)
    requires QueueOk(start) && k < |Waiting(start)|
    requires IsFirst(Promoted(start, k), Waiting(Promoted(start, k)), next)
    ensures Promoted(start, k)[next := Promoted(start, k)[next].(status := Registered)] == Promoted(start, k + 1)
  {
    PromotedSets(start, k);
    FrontSize(start, k);
    forall o | o in Waiting(start) - Front(start, k) ensures !IsAhead(start, o, next) {
      assert IsAhead(start, o, next) == IsAhead(Promoted(start, k), o, next);
    }
    NextInLine(start, k, next);
  }

  /** After promotion every remaining entry has moved up by exactly the number promoted. */
  lemma PromotionMovesEveryoneUp(rows: Rows, free: nat, u: UserId)
    requires QueueOk(rows) && u in Waiting(Promoted(rows, free))
    ensures Position(Promoted(rows, free), u) == Position(rows, u) - free
  {
    PromotedSets(rows, free);
    FrontIsAhead(rows, free, u);
    var front, ahead := Front(rows, free), Ahead(rows, u);
    forall o ensures o in Ahead(Promoted(rows, free), u) <==> o in ahead - front {
      assert o in rows ==> Promoted(rows, free)[o].place == rows[o].place;
    }
    assert ahead == front + (ahead - front);
    assert Ahead(Promoted(rows, free), u) == ahead - front;
  }
}
