/** Link positions: src/server/service/link_service.go and src/server/handler/link_handlers.go.
    The links table is a map from primary key to row; timestamps are left out. */
module Links {
  import opened Wrappers

  datatype Link = Link(profileId: string, position: int, isActive: bool, clickCount: int, details: string)

  type Table = map<string, Link>

  datatype LinkError = LinkNotFound | MaxLinksReached | InvalidLink | DuplicateId

  predicate Owned(rows: Table, id: string, profileId: string) {
    id in rows && rows[id].profileId == profileId
  }

  /** `ids` lists a profile's links, and their positions are first, first + 1, ... in that order. */
  ghost predicate Ranked(rows: Table, profileId: string, ids: seq<string>, first: int) {
    && (forall i | 0 <= i < |ids| :: Owned(rows, ids[i], profileId) && rows[ids[i]].position == first + i)
    && (forall id | Owned(rows, id, profileId) :: id in ids)
  }

  ghost predicate Taken(rows: Table, profileId: string, position: int) {
    exists id :: Owned(rows, id, profileId) && rows[id].position == position
  }

  /** Then every position from first to first + n - 1 is taken by exactly one link, and no other one is. */
  lemma PositionsContiguous(rows: Table, profileId: string, ids: seq<string>, first: int)
    requires Ranked(rows, profileId, ids, first)
    ensures forall p :: Taken(rows, profileId, p) <==> first <= p < first + |ids|
    ensures forall a, b | Owned(rows, a, profileId) && Owned(rows, b, profileId) && a != b ::
              rows[a].position != rows[b].position
  {
    forall p: int
      ensures Taken(rows, profileId, p) <==> first <= p < first + |ids|
    {
      if first <= p < first + |ids| {
        assert Owned(rows, ids[p - first], profileId);
      }
    }
  }

  /** Contiguous positions determine the order of a profile's links. */
  lemma RankingUnique(rows: Table, profileId: string, a: seq<string>, b: seq<string>, first: int)
    requires Ranked(rows, profileId, a, first) && Ranked(rows, profileId, b, first)
    ensures a == b
  {
    Covered(rows, profileId, a, b, first);
    Covered(rows, profileId, b, a, first);
  }

  lemma Covered(rows: Table, profileId: string, a: seq<string>, b: seq<string>, first: int)
    requires Ranked(rows, profileId, a, first) && Ranked(rows, profileId, b, first)
    ensures |a| <= |b| && forall i | 0 <= i < |a| :: a[i] == b[i]
  {
    forall i | 0 <= i < |a|
      ensures i < |b| && a[i] == b[i]
    {
      assert Owned(rows, a[i], profileId);
      var j :| 0 <= j < |b| && b[j] == a[i];
      assert rows[b[j]].position == first + j;
    }
    if |a| > 0 {
      assert a[|a| - 1] == b[|a| - 1];
    }
  }

  // ---- The statements the service runs ----

  /** `COALESCE(MAX(position), none) + 1` over a profile's links. */
  ghost predicate IsNextPosition(rows: Table, profileId: string, none: int, next: int) {
    if exists id :: Owned(rows, id, profileId) then
      && (forall id | Owned(rows, id, profileId) :: rows[id].position < next)
      && (exists id :: Owned(rows, id, profileId) && rows[id].position == next - 1)
    else next == none + 1
  }

  function Shifted(link: Link, profileId: string, after: int): Link {
    if link.profileId == profileId && link.position > after then link.(position := link.position - 1) else link
  }

  function Deleted(rows: Table, id: string): Table
    requires id in rows
  {
    map k | k in rows && k != id :: Shifted(rows[k], rows[id].profileId, rows[id].position)
  }

  /** The positions first, first + 1, ... given to the owned ids of a list, one update after another. */
  function Placed(rows: Table, profileId: string, ids: seq<string>, first: int): Table {
    if ids == [] then rows else
    var before := Placed(rows, profileId, ids[..|ids| - 1], first);
    var id := ids[|ids| - 1];
    if Owned(before, id, profileId) then before[id := before[id].(position := first + |ids| - 1)] else before
  }

  function LinkCount(rows: Table, profileId: string): nat {
    |set id | id in rows && rows[id].profileId == profileId|
  }

  /** The limit on links is checked against as many links as the ranking lists. */
  lemma CountIsLength(rows: Table, profileId: string, ids: seq<string>, first: int)
    requires Ranked(rows, profileId, ids, first)
    ensures LinkCount(rows, profileId) == |ids|
  {
    forall i, j | 0 <= i < j < |ids|
      ensures ids[i] != ids[j]
    {
      assert Owned(rows, ids[i], profileId) && Owned(rows, ids[j], profileId);
    }
    SetSize(ids);
    assert (set id | id in rows && rows[id].profileId == profileId) == set id | id in ids by {
      assert forall id :: id in ids ==> Owned(rows, id, profileId);
    }
  }

  lemma {:induction false} SetSize(ids: seq<string>)
    requires Distinct(ids)
    ensures |set id | id in ids| == |ids|
  {
    if ids == [] {
    } else {
      var n := |ids| - 1;
      SetSize(ids[..n]);
      assert (set id | id in ids) == (set id | id in ids[..n]) + {ids[n]};
    }
  }

  class LinkService {
    var rows: Table

    constructor ()
      ensures rows == map[]
    {
      rows := map[];
    }

    function CountByProfileID(profileId: string): int
      reads this
    {
      LinkCount(rows, profileId)
    }

    /** The query MAX(position), with `none` for NULL. */
    method NextPosition(profileId: string, none: int) returns (next: int)
      ensures IsNextPosition(rows, profileId, none, next)
    {
      var ids := set id | id in rows && rows[id].profileId == profileId;
      if ids == {} {
        assert forall id | Owned(rows, id, profileId) :: id in ids;
        return none + 1;
      }
      var id :| id in ids;
      ghost var top := id;
      assert Owned(rows, id, profileId);
      var max := rows[id].position;
      var rest := ids;
      while rest != {}
        invariant rest <= ids
        invariant Owned(rows, top, profileId) && rows[top].position == max
        invariant forall k | k in ids && k !in rest :: rows[k].position <= max
        decreases rest
      {
        var k :| k in rest;
        if rows[k].position > max {
          max, top := rows[k].position, k;
        }
        rest := rest - {k};
      }
      assert forall k | Owned(rows, k, profileId) :: k in ids;
      return max + 1;
    }

    /** `id` is the random key; `valid` is what link.Validate says. */
    method Create(link: Link, id: string, valid: bool, maxLinks: int) returns (r: Option<LinkError>)
      modifies this
      ensures r == if old(CountByProfileID(link.profileId)) >= maxLinks then Some(MaxLinksReached)
                   else if !valid then Some(InvalidLink)
                   else if id in old(rows) then Some(DuplicateId) else None
      ensures r.Some? ==> rows == old(rows)
      ensures r.None? ==>
                && id in rows
                && (if link.position == 0 then IsNextPosition(old(rows), link.profileId, 0, rows[id].position)
                    else rows[id].position == link.position)
                && rows == old(rows)[id := link.(isActive := true, clickCount := 0, position := rows[id].position)]
    {
      if CountByProfileID(link.profileId) >= maxLinks {
        return Some(MaxLinksReached);
      }
      if !valid {
        return Some(InvalidLink);
      }
      var position := link.position;
      if position == 0 {
        position := NextPosition(link.profileId, 0);
      }
      if id in rows {
        return Some(DuplicateId);
      }
      rows := rows[id := link.(isActive := true, clickCount := 0, position := position)];
      return None;
    }

    method Delete(id: string) returns (r: Option<LinkError>)
      modifies this
      ensures id !in old(rows) ==> r == Some(LinkNotFound) && rows == old(rows)
      ensures id in old(rows) ==> r == None && rows == Deleted(old(rows), id)
    {
      if id !in rows {
        return Some(LinkNotFound);
      }
      var link := rows[id];
      rows := rows - {id};
      rows := map k | k in rows :: Shifted(rows[k], link.profileId, link.position);
      return None;
    }

    method Reorder(profileId: string, linkIds: seq<string>)
      modifies this
      ensures rows == Placed(old(rows), profileId, linkIds, 1)
    {
      for i := 0 to |linkIds|
        invariant rows == Placed(old(rows), profileId, linkIds[..i], 1)
      {
        assert linkIds[..i + 1][..i] == linkIds[..i];
        var id := linkIds[i];
        if id in rows && rows[id].profileId == profileId {
          rows := rows[id := rows[id].(position := i + 1)];
        }
      }
      assert linkIds[..|linkIds|] == linkIds;
    }

    /** The handler's reorderLinks; `listing` is what its SELECT ... ORDER BY position returned. */
    method ReorderLinks(ghost profileId: string, listing: seq<string>)
      requires Listing(rows, profileId, listing)
      modifies this
      ensures rows == Placed(old(rows), profileId, listing, 0)
    {
      for i := 0 to |listing|
        invariant rows == Placed(old(rows), profileId, listing[..i], 0)
      {
        PlacedStep(old(rows), profileId, listing, i);
        var id := listing[i];
        if id in rows {
          rows := rows[id := rows[id].(position := i)];
        }
      }
      assert listing[..|listing|] == listing;
    }
  }

  lemma PlacedStep(rows: Table, profileId: string, ids: seq<string>, i: nat)
    requires i < |ids| && Owned(rows, ids[i], profileId)
    ensures var before := Placed(rows, profileId, ids[..i], 0);
            && ids[i] in before
            && Placed(rows, profileId, ids[..i + 1], 0) == before[ids[i] := before[ids[i]].(position := i)]
  {
    assert ids[..i + 1][..i] == ids[..i];
    PlacedOwners(rows, profileId, ids[..i], 0);
  }

  // ---- Create ----

  /** A link created at the next position comes last, and the profile's positions stay contiguous. */
  lemma CreateRanked(rows: Table, id: string, link: Link, ids: seq<string>, first: int, none: int)
    requires Ranked(rows, link.profileId, ids, first) && id !in rows
    requires IsNextPosition(rows, link.profileId, none, link.position)
    requires ids == [] ==> first == none + 1
    ensures Ranked(rows[id := link], link.profileId, ids + [id], first)
  {
    if ids != [] {
      assert Owned(rows, ids[|ids| - 1], link.profileId);
    }
  }

  lemma CreateElsewhere(rows: Table, id: string, link: Link, profileId: string, ids: seq<string>, first: int)
    requires Ranked(rows, profileId, ids, first) && id !in rows && profileId != link.profileId
    ensures Ranked(rows[id := link], profileId, ids, first)
  {}

  // ---- Delete ----

  /** Deleting closes the gap: the others keep their order and stay contiguous. */
  lemma DeleteRanked(rows: Table, id: string, ids: seq<string>, k: nat, first: int)
    requires id in rows && Ranked(rows, rows[id].profileId, ids, first) && k < |ids| && ids[k] == id
    ensures Ranked(Deleted(rows, id), rows[id].profileId, ids[..k] + ids[k + 1..], first)
  {
    var p := rows[id].profileId;
    var rest := ids[..k] + ids[k + 1..];
    forall i | 0 <= i < |rest|
      ensures Owned(Deleted(rows, id), rest[i], p) && Deleted(rows, id)[rest[i]].position == first + i
    {
      var j := if i < k then i else i + 1;
      assert rest[i] == ids[j] && rows[ids[j]].position == first + j;
    }
    forall a | Owned(Deleted(rows, id), a, p)
      ensures a in rest
    {
      assert Owned(rows, a, p);
      var j :| 0 <= j < |ids| && ids[j] == a;
      assert a == rest[if j < k then j else j - 1];
    }
  }

  /** Links of other profiles are not touched. */
  lemma DeleteElsewhere(rows: Table, id: string, other: string)
    requires id in rows && other in rows && rows[other].profileId != rows[id].profileId
    ensures other in Deleted(rows, id) && Deleted(rows, id)[other] == rows[other]
  {}

  /** Deleting and placing change nothing of a link that stays but its position, and a deletion that only of the
      links strictly behind the deleted one in its profile, whatever positions are taken twice. */
  lemma OnlyPositionsChange(rows: Table, id: string, profileId: string, ids: seq<string>, first: int)
    ensures id in rows ==> Deleted(rows, id).Keys == rows.Keys - {id}
    ensures id in rows ==> forall k | k in rows && k != id ::
                             Deleted(rows, id)[k] == rows[k].(position := Deleted(rows, id)[k].position)
    ensures id in rows ==> forall k | k in rows && k != id ::
                             rows[k].position - Deleted(rows, id)[k].position
                             == if rows[k].profileId == rows[id].profileId && rows[id].position < rows[k].position then 1 else 0
    ensures Placed(rows, profileId, ids, first).Keys == rows.Keys
    ensures forall k | k in rows ::
              Placed(rows, profileId, ids, first)[k] == rows[k].(position := Placed(rows, profileId, ids, first)[k].position)
  {
    PlacedOwners(rows, profileId, ids, first);
    hide Placed;
  }

  // ---- Reorder ----

  ghost predicate Distinct(ids: seq<string>) {
    forall i, j | 0 <= i < j < |ids| :: ids[i] != ids[j]
  }

  lemma {:induction false} PlacedOwners(rows: Table, profileId: string, ids: seq<string>, first: int)
    ensures Placed(rows, profileId, ids, first).Keys == rows.Keys
    ensures forall id | id in rows ::
              var after := Placed(rows, profileId, ids, first)[id];
              after == rows[id].(position := after.position)
    ensures forall id | id in rows && (id !in ids || rows[id].profileId != profileId) ::
              Placed(rows, profileId, ids, first)[id] == rows[id]
  {
    if ids == [] {
    } else {
      PlacedOwners(rows, profileId, ids[..|ids| - 1], first);
    }
  }

  lemma {:induction false} PlacedPositions(rows: Table, profileId: string, ids: seq<string>, first: int, i: nat)
    requires Distinct(ids) && (forall j | 0 <= j < |ids| :: Owned(rows, ids[j], profileId)) && i < |ids|
    ensures ids[i] in Placed(rows, profileId, ids, first)
    ensures Placed(rows, profileId, ids, first)[ids[i]].position == first + i
  {
    PlacedOwners(rows, profileId, ids[..|ids| - 1], first);
    if i == |ids| - 1 {
    } else {
      PlacedPositions(rows, profileId, ids[..|ids| - 1], first, i);
    }
  }

  /** A list of all links of a profile, each once, becomes the profile's order. */
  lemma PlacedRanked(rows: Table, profileId: string, ids: seq<string>, first: int)
    requires Distinct(ids) && (forall id :: Owned(rows, id, profileId) <==> id in ids)
    ensures Ranked(Placed(rows, profileId, ids, first), profileId, ids, first)
  {
    PlacedOwners(rows, profileId, ids, first);
    forall i | 0 <= i < |ids|
      ensures Owned(Placed(rows, profileId, ids, first), ids[i], profileId)
              && Placed(rows, profileId, ids, first)[ids[i]].position == first + i
    {
      assert forall j | 0 <= j < |ids| :: ids[j] in ids;
      PlacedPositions(rows, profileId, ids, first, i);
    }
  }

  /** Reorder by a permutation of a contiguous profile's links puts them in exactly that order. */
  lemma ReorderRanked(rows: Table, profileId: string, ids: seq<string>, order: seq<string>)
    requires Ranked(rows, profileId, ids, 1) && multiset(order) == multiset(ids)
    ensures Ranked(Placed(rows, profileId, order, 1), profileId, order, 1)
    ensures forall id | id in rows && rows[id].profileId != profileId ::
              id in Placed(rows, profileId, order, 1) && Placed(rows, profileId, order, 1)[id] == rows[id]
  {
    PlacedOwners(rows, profileId, order, 1);
    assert forall i, j | 0 <= i < j < |ids| :: rows[ids[i]].position != rows[ids[j]].position;
    PermutationDistinct(ids, order);
    assert forall id :: id in ids <==> id in multiset(ids);
    assert forall id :: id in order <==> id in multiset(order);
    PlacedRanked(rows, profileId, order, 1);
  }

  lemma {:induction false} DistinctOnce(ids: seq<string>, id: string)
    requires Distinct(ids)
    ensures multiset(ids)[id] <= 1
  {
    if ids == [] {
    } else {
      DistinctOnce(ids[1..], id);
      assert ids == [ids[0]] + ids[1..];
      assert forall x :: x in multiset(ids[1..]) <==> x in ids[1..];
    }
  }

  lemma {:induction false} OnceDistinct(ids: seq<string>)
    requires forall id :: multiset(ids)[id] <= 1
    ensures Distinct(ids)
  {
    if ids == [] {
    } else {
      var n := |ids| - 1;
      assert ids == ids[..n] + [ids[n]];
      forall id: string
        ensures multiset(ids[..n])[id] + (if id == ids[n] then 1 else 0) <= 1
      {
        assert multiset(ids)[id] == multiset(ids[..n])[id] + multiset{ids[n]}[id];
      }
      OnceDistinct(ids[..n]);
      assert forall i | 0 <= i < n :: ids[i] in multiset(ids[..n]);
    }
  }

  lemma PermutationDistinct(ids: seq<string>, order: seq<string>)
    requires Distinct(ids) && multiset(order) == multiset(ids)
    ensures Distinct(order)
  {
    forall id: string
      ensures multiset(ids)[id] <= 1
    {
      DistinctOnce(ids, id);
    }
    OnceDistinct(order);
  }

  // ---- The handler's reorderLinks ----

  /** A profile's links in the order of their positions; ties in any order. */
  ghost predicate Listing(rows: Table, profileId: string, ids: seq<string>) {
    && Distinct(ids)
    && (forall id :: Owned(rows, id, profileId) <==> id in ids)
    && (forall i, j | 0 <= i < j < |ids| :: Owned(rows, ids[i], profileId) && Owned(rows, ids[j], profileId) ==>
                                              rows[ids[i]].position <= rows[ids[j]].position)
  }

  /** Whatever the positions were, they become 0..n-1, and links keep their strict order. */
  lemma ReorderLinksRanked(rows: Table, profileId: string, listing: seq<string>)
    requires Listing(rows, profileId, listing)
    ensures var after := Placed(rows, profileId, listing, 0);
            && Ranked(after, profileId, listing, 0)
            && forall a, b | Owned(rows, a, profileId) && Owned(rows, b, profileId) && rows[a].position < rows[b].position ::
                 a in after && b in after && after[a].position < after[b].position
  {
    PlacedRanked(rows, profileId, listing, 0);
    var after := Placed(rows, profileId, listing, 0);
    forall a, b | Owned(rows, a, profileId) && Owned(rows, b, profileId) && rows[a].position < rows[b].position
      ensures a in after && b in after && after[a].position < after[b].position
    {
      var i :| 0 <= i < |listing| && listing[i] == a;
      var j :| 0 <= j < |listing| && listing[j] == b;
      assert Owned(after, listing[i], profileId) && Owned(after, listing[j], profileId);
    }
  }

  /** A second time changes nothing, whichever order the query returns then. */
  lemma ReorderLinksIdempotent(rows: Table, profileId: string, listing: seq<string>, again: seq<string>)
    requires Listing(rows, profileId, listing)
    requires Listing(Placed(rows, profileId, listing, 0), profileId, again)
    ensures again == listing
    ensures Placed(Placed(rows, profileId, listing, 0), profileId, again, 0) == Placed(rows, profileId, listing, 0)
  {
    var after := Placed(rows, profileId, listing, 0);
    PlacedRanked(rows, profileId, listing, 0);
    ListingIsRanking(after, profileId, listing, again);
    PlacedSame(after, profileId, again, 0);
  }

  /** Contiguous positions leave the query one order only. */
  lemma ListingIsRanking(rows: Table, profileId: string, ids: seq<string>, listing: seq<string>)
    requires Ranked(rows, profileId, ids, 0) && Listing(rows, profileId, listing)
    ensures listing == ids
  {
    forall i: nat | i < |listing|
      ensures i < |ids| && listing[i] == ids[i]
    {
      PositionAtIndex(rows, profileId, ids, listing, i);
    }
    if listing != [] {
      PositionAtIndex(rows, profileId, ids, listing, |listing| - 1);
    }
    NothingMissing(rows, profileId, ids, listing);
  }

  lemma NothingMissing(rows: Table, profileId: string, ids: seq<string>, listing: seq<string>)
    requires Ranked(rows, profileId, ids, 0) && Listing(rows, profileId, listing)
    requires |listing| <= |ids| && forall i | 0 <= i < |listing| :: listing[i] == ids[i]
    ensures |listing| == |ids|
  {
    if ids != [] {
      var n := |ids| - 1;
      assert Owned(rows, ids[n], profileId);
      var j :| 0 <= j < |listing| && listing[j] == ids[n];
      assert rows[ids[j]].position == j;
    }
  }

  lemma {:induction false} PositionAtIndex(rows: Table, profileId: string, ids: seq<string>, listing: seq<string>, i: nat)
    requires Ranked(rows, profileId, ids, 0) && Listing(rows, profileId, listing) && i < |listing|
    ensures i < |ids| && listing[i] == ids[i]
  {
    forall j: nat | j < i
      ensures j < |ids| && listing[j] == ids[j]
    {
      PositionAtIndex(rows, profileId, ids, listing, j);
    }
    assert Owned(rows, listing[i], profileId);
    var p :| 0 <= p < |ids| && ids[p] == listing[i];
    assert p >= i;
    assert Owned(rows, ids[i], profileId);
    var k :| 0 <= k < |listing| && listing[k] == ids[i];
    assert k >= i;
    assert rows[listing[i]].position <= rows[listing[k]].position;
  }

  lemma {:induction false} PlacedSame(rows: Table, profileId: string, ids: seq<string>, first: int)
    requires forall i | 0 <= i < |ids| :: Owned(rows, ids[i], profileId) && rows[ids[i]].position == first + i
    ensures Placed(rows, profileId, ids, first) == rows
  {
    if ids == [] {
    } else {
      PlacedSame(rows, profileId, ids[..|ids| - 1], first);
    }
  }

  /** The handler's DeleteLink: the survivors get 0..n-1 and keep their strict order. */
  lemma DeleteLinkRanked(rows: Table, id: string, listing: seq<string>)
    requires id in rows && Listing(rows - {id}, rows[id].profileId, listing)
    ensures var p, after := rows[id].profileId, Placed(rows - {id}, rows[id].profileId, listing, 0);
            && Ranked(after, p, listing, 0) && id !in after
            && forall a, b | Owned(rows, a, p) && Owned(rows, b, p) && id !in {a, b} && rows[a].position < rows[b].position ::
                 a in after && b in after && after[a].position < after[b].position
  {
    var p := rows[id].profileId;
    assert forall a | Owned(rows, a, p) && a != id :: Owned(rows - {id}, a, p);
    ReorderLinksRanked(rows - {id}, p, listing);
    PlacedOwners(rows - {id}, p, listing, 0);
  }

  // ---- Whole runs of service and handlers on one table ----

  /** The service numbers from 1, the handlers from 0. */
  datatype Op =
    | Create(id: string, link: Link)
    | Delete(id: string)
    | Reorder(profileId: string, order: seq<string>)
    | HandlerCreate(id: string, link: Link)
    | HandlerDelete(id: string, listing: seq<string>)
    | HandlerReorder(profileId: string, order: seq<string>)

  function Base(op: Op): int {
    if op.Create? || op.Delete? || op.Reorder? then 1 else 0
  }

  /** A create at the next position, a delete of a link, a reorder that lists every link once. */
  ghost predicate CanApply(rows: Table, op: Op) {
    match op
    case Create(id, link) => id !in rows && IsNextPosition(rows, link.profileId, Base(op) - 1, link.position)
    case HandlerCreate(id, link) => id !in rows && IsNextPosition(rows, link.profileId, Base(op) - 1, link.position)
    case Delete(id) => id in rows
    case HandlerDelete(id, listing) => id in rows && Listing(rows - {id}, rows[id].profileId, listing)
    case Reorder(p, order) => Distinct(order) && forall id :: Owned(rows, id, p) <==> id in order
    case HandlerReorder(p, order) => Distinct(order) && forall id :: Owned(rows, id, p) <==> id in order
  }

  ghost function Apply(rows: Table, op: Op): Table
    requires CanApply(rows, op)
  {
    match op
    case Create(id, link) => rows[id := link]
    case HandlerCreate(id, link) => rows[id := link]
    case Delete(id) => Deleted(rows, id)
    case HandlerDelete(id, listing) => Placed(rows - {id}, rows[id].profileId, listing, 0)
    case Reorder(p, order) => Placed(rows, p, order, 1)
    case HandlerReorder(p, order) => Placed(rows, p, order, 0)
  }

  /** The order in which positions first, first + 1, ... list a profile's links. */
  ghost predicate HasRanking(rows: Table, profileId: string, first: int) {
    exists ids :: Ranked(rows, profileId, ids, first)
  }

  lemma CreateKeepsRanking(rows: Table, id: string, link: Link, base: int, p: string, first: int)
    requires id !in rows && IsNextPosition(rows, link.profileId, base - 1, link.position) && HasRanking(rows, p, first)
    ensures HasRanking(rows[id := link], p, first) || HasRanking(rows[id := link], p, base)
  {
    var ids :| Ranked(rows, p, ids, first);
    if link.profileId != p {
      CreateElsewhere(rows, id, link, p, ids, first);
    } else if ids == [] {
      assert Ranked(rows, p, ids, base);
      CreateRanked(rows, id, link, ids, base, base - 1);
    } else {
      CreateRanked(rows, id, link, ids, first, base - 1);
    }
  }

  lemma DeleteKeepsRanking(rows: Table, id: string, p: string, first: int)
    requires id in rows && HasRanking(rows, p, first)
    ensures HasRanking(Deleted(rows, id), p, first)
  {
    var ids :| Ranked(rows, p, ids, first);
    if rows[id].profileId == p {
      assert Owned(rows, id, p);
      var k :| 0 <= k < |ids| && ids[k] == id;
      DeleteRanked(rows, id, ids, k, first);
    } else {
      assert Ranked(Deleted(rows, id), p, ids, first);
    }
  }

  lemma PlacingKeepsRanking(rows: Table, q: string, order: seq<string>, base: int, p: string, first: int)
    requires Distinct(order) && (forall id :: Owned(rows, id, q) <==> id in order)
    requires p != q ==> HasRanking(rows, p, first)
    ensures HasRanking(Placed(rows, q, order, base), p, if p == q then base else first)
  {
    if p == q {
      PlacedRanked(rows, p, order, base);
    } else {
      var ids :| Ranked(rows, p, ids, first);
      PlacedOwners(rows, q, order, base);
      assert Ranked(Placed(rows, q, order, base), p, ids, first);
    }
  }

  lemma RemovedElsewhere(rows: Table, id: string, p: string, first: int)
    requires id in rows && rows[id].profileId != p && HasRanking(rows, p, first)
    ensures HasRanking(rows - {id}, p, first)
  {
    var ids :| Ranked(rows, p, ids, first);
    assert Ranked(rows - {id}, p, ids, first);
  }

  /** Every operation keeps the positions of every profile contiguous, from where they started or from
      the operation's own base. */
  lemma ApplyKeepsRanking(rows: Table, op: Op, p: string, first: int)
    requires CanApply(rows, op) && HasRanking(rows, p, first)
    ensures HasRanking(Apply(rows, op), p, first) || HasRanking(Apply(rows, op), p, Base(op))
  {
    hide IsNextPosition, HasRanking, Placed, Deleted;
    match op
    case Create(id, link) => CreateKeepsRanking(rows, id, link, 1, p, first);
    case HandlerCreate(id, link) => CreateKeepsRanking(rows, id, link, 0, p, first);
    case Delete(id) => DeleteKeepsRanking(rows, id, p, first);
    case HandlerDelete(id, listing) =>
      if rows[id].profileId != p {
        RemovedElsewhere(rows, id, p, first);
      }
      PlacingKeepsRanking(rows - {id}, rows[id].profileId, listing, 0, p, first);
    case Reorder(q, order) => PlacingKeepsRanking(rows, q, order, 1, p, first);
    case HandlerReorder(q, order) => PlacingKeepsRanking(rows, q, order, 0, p, first);
  }

  ghost predicate Run(tables: seq<Table>, ops: seq<Op>) {
    && |tables| == |ops| + 1 && tables[0] == map[]
    && forall i | 0 <= i < |ops| :: CanApply(tables[i], ops[i]) && tables[i + 1] == Apply(tables[i], ops[i])
  }

  /** From an empty table on, every profile's positions are contiguous after every run, and start at the
      base of one of the kinds of operation that ran. */
  lemma {:induction false} AlwaysRanked(tables: seq<Table>, ops: seq<Op>, k: nat, p: string, bases: set<int>)
    requires Run(tables, ops) && k < |tables|
    requires (exists first :: first in bases) && forall i | 0 <= i < |ops| :: Base(ops[i]) in bases
    ensures exists first :: first in bases && HasRanking(tables[k], p, first)
  {
    if k == 0 {
      var first :| first in bases;
      assert Ranked(map[], p, [], first);
    } else {
      hide HasRanking, CanApply, Apply;
      AlwaysRanked(tables, ops, k - 1, p, bases);
      var first :| first in bases && HasRanking(tables[k - 1], p, first);
      ApplyKeepsRanking(tables[k - 1], ops[k - 1], p, first);
      assert tables[k] == Apply(tables[k - 1], ops[k - 1]);
    }
  }

  /** With the service alone they are 1..n, with the handlers alone 0..n-1, with both one of the two. */
  lemma RankedByKind(tables: seq<Table>, ops: seq<Op>, k: nat, p: string)
    requires Run(tables, ops) && k < |tables|
    ensures (forall i | 0 <= i < |ops| :: Base(ops[i]) == 1) ==> HasRanking(tables[k], p, 1)
    ensures (forall i | 0 <= i < |ops| :: Base(ops[i]) == 0) ==> HasRanking(tables[k], p, 0)
    ensures HasRanking(tables[k], p, 0) || HasRanking(tables[k], p, 1)
  {
    hide HasRanking, Run;
    AlwaysRanked(tables, ops, k, p, {0, 1});
    if forall i | 0 <= i < |ops| :: Base(ops[i]) == 1 {
      AlwaysRanked(tables, ops, k, p, {1});
    }
    if forall i | 0 <= i < |ops| :: Base(ops[i]) == 0 {
      AlwaysRanked(tables, ops, k, p, {0});
    }
  }
}
