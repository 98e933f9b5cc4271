/** `MembershipUsageService`: the resources bound to a membership, as the
    first `limit` items of the users, applications, roles, providers and
    webhooks of that membership, concatenated in that order. The five
    service calls are one function from query to page items; that they run
    concurrently does not change the joined result. */
module MembershipUsage {

  datatype ResourceKind = Users | Applications | Roles | Providers | Webhooks

  /** The order in which the five lists are concatenated. */
  const Kinds: seq<ResourceKind> := [Users, Applications, Roles, Providers, Webhooks]

  /** The `limit` both entry points use when the caller gives none. */
  const DefaultLimit: int := 10

  /** One `GetAsync(membershipId, skip, limit, ...)` call on a resource service. */
  datatype Query = Query(kind: ResourceKind, membershipId: string, skip: int, limit: int)

  /** The items of the page each service returns for a query. */
  type Fetch<!T> = Query -> seq<T>

  /** The query sent to one service: the same membership, no skip and the
      caller's limit. */
  function QueryFor(kind: ResourceKind, membershipId: string, limit: int): Query {
    Query(kind, membershipId, 0, limit)
  }

  /** The queries sent, in concatenation order. */
  function Queries(membershipId: string, limit: int): (qs: seq<Query>)
    ensures |qs| == |Kinds|
    ensures forall i :: 0 <= i < |qs| ==> qs[i] == Query(Kinds[i], membershipId, 0, limit)
  {
    seq(|Kinds|, i requires 0 <= i < |Kinds| => QueryFor(Kinds[i], membershipId, limit))
  }

  /** `Enumerable.Take`: nothing for a non-positive count, everything for a
      count past the end, else the first `n` items. */
  function Take<T>(xs: seq<T>, n: int): (r: seq<T>)
    ensures n <= 0 ==> r == []
    ensures 0 <= n <= |xs| ==> |r| == n
    ensures n >= |xs| ==> r == xs
    ensures r == xs[..|r|]
  {
    if n <= 0 then [] else if n >= |xs| then xs else xs[..n]
  }

  /** The five lists in fixed order, joined: the users, then the
      applications, roles, providers and webhooks. */
  function Cumulative<T>(fetch: Fetch<T>, membershipId: string, limit: int): seq<T> {
    fetch(QueryFor(Users, membershipId, limit))
    + fetch(QueryFor(Applications, membershipId, limit))
    + fetch(QueryFor(Roles, membershipId, limit))
    + fetch(QueryFor(Providers, membershipId, limit))
    + fetch(QueryFor(Webhooks, membershipId, limit))
  }

  /** `GetMembershipBoundedResourcesAsync`, after the join. */
  function BoundedResources<T>(fetch: Fetch<T>, membershipId: string, limit: int): (r: seq<T>)
    ensures |r| <= |Cumulative(fetch, membershipId, limit)|
    ensures limit <= 0 ==> r == []
    ensures limit > 0 ==> |r| <= limit
    ensures r == Cumulative(fetch, membershipId, limit)[..|r|]
    ensures |Cumulative(fetch, membershipId, limit)| <= limit ==> r == Cumulative(fetch, membershipId, limit)
    ensures 0 <= limit <= |Cumulative(fetch, membershipId, limit)| ==> |r| == limit
  {
    Take(Cumulative(fetch, membershipId, limit), limit)
  }

  /** `GetMembershipBoundedResources`, the blocking wrapper: the same value. */
  function BoundedResourcesSync<T>(fetch: Fetch<T>, membershipId: string, limit: int := DefaultLimit): (r: seq<T>)
    ensures r == BoundedResources(fetch, membershipId, limit)
  {
    BoundedResources(fetch, membershipId, limit)
  }

  /** Concatenation of a sequence of lists, in order. */
  function Flatten<T>(parts: seq<seq<T>>): seq<T> {
    if |parts| == 0 then [] else Flatten(parts[..|parts| - 1]) + parts[|parts| - 1]
  }

  /** The service as written: query each resource service, append each page
      to the cumulative list in order, then take `limit` items. */
  method GetBoundedResources<T>(fetch: Fetch<T>, membershipId: string, limit: int := DefaultLimit) returns (r: seq<T>)
    ensures r == BoundedResources(fetch, membershipId, limit)
  {
    var queries := Queries(membershipId, limit);
    var pages: seq<seq<T>> := [];
    var cumulative: seq<T> := [];
    var i := 0;
    while i < |queries|
      invariant 0 <= i <= |queries|
      invariant |pages| == i
      invariant forall k :: 0 <= k < i ==> pages[k] == fetch(queries[k])
      invariant cumulative == Flatten(pages)
    {
      assert (pages + [fetch(queries[i])])[..i] == pages;
      pages := pages + [fetch(queries[i])];
      cumulative := cumulative + fetch(queries[i]);
      i := i + 1;
    }
    FlattenFive(pages);
    r := Take(cumulative, limit);
  }

  lemma FlattenFive<T>(parts: seq<seq<T>>)
    requires |parts| == 5
    ensures Flatten(parts) == parts[0] + parts[1] + parts[2] + parts[3] + parts[4]
  {
    assert parts[..5] == parts;
    assert parts[..4][..3] == parts[..3] && parts[..3][..2] == parts[..2] && parts[..2][..1] == parts[..1];
    assert parts[..1][..0] == [];
    assert Flatten(parts[..1]) == parts[0];
    assert Flatten(parts[..2]) == parts[0] + parts[1];
    assert Flatten(parts[..3]) == parts[0] + parts[1] + parts[2];
    assert Flatten(parts[..4]) == parts[0] + parts[1] + parts[2] + parts[3];
  }

  // ---------------------------------------------------------------------------
  // Properties of the selection
  // ---------------------------------------------------------------------------

  /** Users come first: the first items are users, in the order the user
      service returned them, up to the limit. */
  lemma UsersComeFirst<T>(fetch: Fetch<T>, membershipId: string, limit: int, i: int)
    requires 0 <= i < |fetch(QueryFor(Users, membershipId, limit))| && i < limit
    ensures i < |BoundedResources(fetch, membershipId, limit)|
    ensures BoundedResources(fetch, membershipId, limit)[i] == fetch(QueryFor(Users, membershipId, limit))[i]
  {
  }

  /** Every resource of a later kind follows every resource of an earlier
      kind: item `j` of the `b`-th list sits after item `i` of the `a`-th list
      when `a` comes before `b`, and both are kept when both positions are
      under the limit. */
  lemma KindsKeepTheirOrder<T>(fetch: Fetch<T>, membershipId: string, limit: int, a: nat, b: nat, i: nat, j: nat)
    requires a < b < |Kinds|
    requires i < |fetch(QueryFor(Kinds[a], membershipId, limit))|
    requires j < |fetch(QueryFor(Kinds[b], membershipId, limit))|
    ensures var pages := seq(|Kinds|, k requires 0 <= k < |Kinds| => fetch(QueryFor(Kinds[k], membershipId, limit)));
            Offset(pages, a) + i < Offset(pages, b) + j < |Cumulative(fetch, membershipId, limit)|
    ensures var pages := seq(|Kinds|, k requires 0 <= k < |Kinds| => fetch(QueryFor(Kinds[k], membershipId, limit)));
            Offset(pages, b) + j < limit ==>
              && BoundedResources(fetch, membershipId, limit)[Offset(pages, a) + i] == pages[a][i]
              && BoundedResources(fetch, membershipId, limit)[Offset(pages, b) + j] == pages[b][j]
  {
    var pages := seq(|Kinds|, k requires 0 <= k < |Kinds| => fetch(QueryFor(Kinds[k], membershipId, limit)));
    OffsetGrows(pages, a, b);
    FlattenFive(pages);
    assert Flatten(pages) == Cumulative(fetch, membershipId, limit);
    FlattenAt(pages, a, i);
    FlattenAt(pages, b, j);
  }

  /** With the default limit, at most ten resources come back, and they are
      the first ten of the joined lists. */
  lemma SyncUsesDefaultLimit<T>(fetch: Fetch<T>, membershipId: string)
    ensures |BoundedResourcesSync(fetch, membershipId)| <= 10
    ensures BoundedResourcesSync(fetch, membershipId) == Take(Cumulative(fetch, membershipId, 10), 10)
  {
  }

  /** Where the `k`-th list starts in the concatenation. */
  function Offset<T>(parts: seq<seq<T>>, k: nat): nat
    requires k <= |parts|
  {
    |Flatten(parts[..k])|
  }

  lemma {:induction false} OffsetGrows<T>(parts: seq<seq<T>>, a: nat, b: nat)
    requires a < b <= |parts|
    ensures Offset(parts, a) + |parts[a]| <= Offset(parts, b)
    decreases b - a
  {
    assert parts[..a + 1][..a] == parts[..a];
    if a + 1 < b {
      OffsetGrows(parts, a + 1, b);
      OffsetMonotone(parts, a + 1, b);
    }
  }

  lemma {:induction false} OffsetMonotone<T>(parts: seq<seq<T>>, a: nat, b: nat)
    requires a <= b <= |parts|
    ensures Offset(parts, a) <= Offset(parts, b)
    decreases b - a
  {
    if a < b {
      assert parts[..b][..b - 1] == parts[..b - 1];
      OffsetMonotone(parts, a, b - 1);
    }
  }

  /** Item `i` of the `k`-th list sits at its offset plus `i`. */
  lemma {:induction false} FlattenAt<T>(parts: seq<seq<T>>, k: nat, i: nat)
    requires k < |parts| && i < |parts[k]|
    ensures Offset(parts, k) + i < |Flatten(parts)|
    ensures Flatten(parts)[Offset(parts, k) + i] == parts[k][i]
    decreases |parts|
  {
    var last := |parts| - 1;
    assert Flatten(parts) == Flatten(parts[..last]) + parts[last];
    if k == last {
    } else {
      assert parts[..last][k] == parts[k];
      assert parts[..last][..k] == parts[..k];
      FlattenAt(parts[..last], k, i);
    }
  }

  /** When everything fits under the limit, nothing fetched is dropped. */
  lemma EverythingFits<T>(fetch: Fetch<T>, membershipId: string, limit: int, kind: ResourceKind, x: T)
    requires |Cumulative(fetch, membershipId, limit)| <= limit
    requires x in fetch(QueryFor(kind, membershipId, limit))
    ensures x in BoundedResources(fetch, membershipId, limit)
  {
  }
}
