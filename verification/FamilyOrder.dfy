/** The order in which ids enter the frontier: grouped by family, each group in seeded order, then one id
    of each family in turn. */
module FamilyOrder {

  type Id = string
  type Family = string

  /** The seeded comparison of ids (hash, then id) and the sort order of family names, as given. */
  datatype Seeding = Seeding(idBefore: (Id, Id) -> bool, nameBefore: (Family, Family) -> bool)

  // ── groups ───────────────────────────────────────────────────────────────────

  function InsertId(seeding: Seeding, x: Id, s: seq<Id>): (r: seq<Id>)
    ensures multiset(r) == multiset(s) + multiset{x}
  {
    if s == [] || !seeding.idBefore(s[0], x) then [x] + s
    else
      assert s == [s[0]] + s[1..];
      [s[0]] + InsertId(seeding, x, s[1..])
  }

  function SortIds(seeding: Seeding, s: seq<Id>): (r: seq<Id>)
    ensures multiset(r) == multiset(s)
  {
    if s == [] then []
    else
      assert s == [s[0]] + s[1..];
      InsertId(seeding, s[0], SortIds(seeding, s[1..]))
  }

  /** The ids of the given families, in arrival order. */
  function Members(familyOf: Id -> Family, ids: seq<Id>, families: set<Family>): seq<Id> {
    if ids == [] then []
    else if familyOf(ids[0]) in families then [ids[0]] + Members(familyOf, ids[1..], families)
    else Members(familyOf, ids[1..], families)
  }

  function InsertName(seeding: Seeding, f: Family, names: seq<Family>): (r: seq<Family>)
    ensures forall x :: x in r <==> x == f || x in names
  {
    if names == [] || !seeding.nameBefore(names[0], f) then [f] + names
    else
      assert names == [names[0]] + names[1..];
      [names[0]] + InsertName(seeding, f, names[1..])
  }

  /** The keys of the map of groups, sorted. */
  function Names(seeding: Seeding, familyOf: Id -> Family, ids: seq<Id>): (r: seq<Family>)
    ensures forall i :: 0 <= i < |ids| ==> familyOf(ids[i]) in r
  {
    if ids == [] then []
    else
      var rest := Names(seeding, familyOf, ids[1..]);
      assert forall i :: 0 < i < |ids| ==> ids[i] == ids[1..][i - 1];
      if familyOf(ids[0]) in rest then rest else InsertName(seeding, familyOf(ids[0]), rest)
  }

  function Groups(seeding: Seeding, familyOf: Id -> Family, ids: seq<Id>, names: seq<Family>): seq<seq<Id>> {
    if names == [] then []
    else [SortIds(seeding, Members(familyOf, ids, {names[0]}))] + Groups(seeding, familyOf, ids, names[1..])
  }

  // ── taking turns ─────────────────────────────────────────────────────────────

  /** The i-th id of every group that has one. */
  function Round(groups: seq<seq<Id>>, i: nat): seq<Id> {
    if groups == [] then []
    else if i < |groups[0]| then [groups[0][i]] + Round(groups[1..], i)
    else Round(groups[1..], i)
  }

  function Longest(groups: seq<seq<Id>>): (n: nat)
    ensures forall k :: 0 <= k < |groups| ==> |groups[k]| <= n
  {
    if groups == [] then 0
    else
      var rest := Longest(groups[1..]);
      assert forall k :: 0 < k < |groups| ==> groups[k] == groups[1..][k - 1];
      if |groups[0]| > rest then |groups[0]| else rest
  }

  lemma {:induction false} NoRoundAfterLongest(groups: seq<seq<Id>>, i: nat)
    requires forall k :: 0 <= k < |groups| ==> |groups[k]| <= i
    ensures Round(groups, i) == []
  {
    if groups != [] {
      NoRoundAfterLongest(groups[1..], i);
    }
  }

  /** Rounds until one adds nothing. */
  function Rounds(groups: seq<seq<Id>>, i: nat): seq<Id>
    decreases if i <= Longest(groups) then Longest(groups) - i + 1 else 0
  {
    if Round(groups, i) == [] then []
    else
      assert i < Longest(groups) by {
        if i >= Longest(groups) { NoRoundAfterLongest(groups, i); }
      }
      Round(groups, i) + Rounds(groups, i + 1)
  }

  /** The order of `ids`. */
  function Interleaved(seeding: Seeding, familyOf: Id -> Family, ids: seq<Id>): seq<Id> {
    Rounds(Groups(seeding, familyOf, ids, Names(seeding, familyOf, ids)), 0)
  }

  // ── nothing lost, nothing doubled ────────────────────────────────────────────

  /** What is left of every group from position `i` on. */
  function Rest(groups: seq<seq<Id>>, i: nat): multiset<Id> {
    if groups == [] then multiset{}
    else multiset(if i <= |groups[0]| then groups[0][i..] else []) + Rest(groups[1..], i)
  }

  lemma {:induction false} RoundTakes(groups: seq<seq<Id>>, i: nat)
    ensures Rest(groups, i) == multiset(Round(groups, i)) + Rest(groups, i + 1)
  {
    if groups != [] {
      RoundTakes(groups[1..], i);
      if i < |groups[0]| {
        assert groups[0][i..] == [groups[0][i]] + groups[0][i + 1..];
      }
    }
  }

  lemma {:induction false} NothingLeft(groups: seq<seq<Id>>, i: nat)
    requires Round(groups, i) == []
    ensures Rest(groups, i) == multiset{}
  {
    if groups != [] {
      NothingLeft(groups[1..], i);
    }
  }

  lemma {:induction false} RoundsTakeAll(groups: seq<seq<Id>>, i: nat)
    ensures multiset(Rounds(groups, i)) == Rest(groups, i)
    decreases if i <= Longest(groups) then Longest(groups) - i + 1 else 0
  {
    if Round(groups, i) == [] {
      NothingLeft(groups, i);
    } else {
      if i >= Longest(groups) {
        NoRoundAfterLongest(groups, i);
      }
      RoundTakes(groups, i);
      RoundsTakeAll(groups, i + 1);
    }
  }

  lemma {:induction false} MembersSplit(familyOf: Id -> Family, ids: seq<Id>, f: Family, others: set<Family>)
    requires f !in others
    ensures multiset(Members(familyOf, ids, {f} + others)) ==
            multiset(Members(familyOf, ids, {f})) + multiset(Members(familyOf, ids, others))
  {
    if ids != [] {
      MembersSplit(familyOf, ids[1..], f, others);
    }
  }

  lemma {:induction false} NoMembers(familyOf: Id -> Family, ids: seq<Id>)
    ensures Members(familyOf, ids, {}) == []
  {
    if ids != [] {
      NoMembers(familyOf, ids[1..]);
    }
  }

  lemma {:induction false} AllMembers(familyOf: Id -> Family, ids: seq<Id>, families: set<Family>)
    requires forall i :: 0 <= i < |ids| ==> familyOf(ids[i]) in families
    ensures Members(familyOf, ids, families) == ids
  {
    if ids != [] {
      AllMembers(familyOf, ids[1..], families);
    }
  }

  ghost predicate Distinct(names: seq<Family>) {
    forall i, j :: 0 <= i < j < |names| ==> names[i] != names[j]
  }

  lemma {:induction false} GroupsHold(seeding: Seeding, familyOf: Id -> Family, ids: seq<Id>, names: seq<Family>)
    requires Distinct(names)
    ensures Rest(Groups(seeding, familyOf, ids, names), 0) == multiset(Members(familyOf, ids, set f | f in names))
    decreases |names|
  {
    if names == [] {
      NoMembers(familyOf, ids);
      assert (set f | f in names) == {};
    } else {
      var rest := set f | f in names[1..];
      GroupsHold(seeding, familyOf, ids, names[1..]);
      NamesOf(names);
      MembersSplit(familyOf, ids, names[0], rest);
      RestOfAll(SortIds(seeding, Members(familyOf, ids, {names[0]})), Groups(seeding, familyOf, ids, names[1..]));
    }
  }

  lemma RestOfAll(group: seq<Id>, groups: seq<seq<Id>>)
    ensures Rest([group] + groups, 0) == multiset(group) + Rest(groups, 0)
  {
    assert group[0..] == group && ([group] + groups)[1..] == groups;
  }

  lemma NamesOf(names: seq<Family>)
    requires names != [] && Distinct(names)
    ensures (set f | f in names) == {names[0]} + set f | f in names[1..]
    ensures names[0] !in names[1..]
  {
    assert names == [names[0]] + names[1..];
  }

  lemma {:induction false} InsertNameDistinct(seeding: Seeding, f: Family, names: seq<Family>)
    requires Distinct(names) && f !in names
    ensures Distinct(InsertName(seeding, f, names))
  {
    if names != [] && seeding.nameBefore(names[0], f) {
      var rest := InsertName(seeding, f, names[1..]);
      InsertNameDistinct(seeding, f, names[1..]);
      forall j | 0 <= j < |rest|
        ensures rest[j] != names[0]
      {
        assert rest[j] in rest;
        assert names[0] in names;
      }
    }
  }

  lemma {:induction false} NamesDistinct(seeding: Seeding, familyOf: Id -> Family, ids: seq<Id>)
    ensures Distinct(Names(seeding, familyOf, ids))
  {
    if ids != [] {
      NamesDistinct(seeding, familyOf, ids[1..]);
      var rest := Names(seeding, familyOf, ids[1..]);
      if familyOf(ids[0]) !in rest {
        InsertNameDistinct(seeding, familyOf(ids[0]), rest);
      }
    }
  }

  /** The interleaved order is a rearrangement of the ids, whatever the seed and the families. */
  lemma InterleavedRearranges(seeding: Seeding, familyOf: Id -> Family, ids: seq<Id>)
    ensures multiset(Interleaved(seeding, familyOf, ids)) == multiset(ids)
  {
    var names := Names(seeding, familyOf, ids);
    NamesDistinct(seeding, familyOf, ids);
    RoundsTakeAll(Groups(seeding, familyOf, ids, names), 0);
    GroupsHold(seeding, familyOf, ids, names);
    AllMembers(familyOf, ids, set f | f in names);
  }

  // ── in which order ───────────────────────────────────────────────────────────

  ghost predicate StrictOrder(before: (string, string) -> bool) {
    && (forall x :: !before(x, x))
    && (forall x, y :: x != y ==> before(x, y) || before(y, x))
    && (forall x, y, z :: before(x, y) && before(y, z) ==> before(x, z))
  }

  ghost predicate SortedBy(before: (string, string) -> bool, s: seq<string>) {
    forall i, j :: 0 <= i < j < |s| ==> before(s[i], s[j])
  }

  ghost predicate AllAfter(before: (string, string) -> bool, x: string, s: seq<string>) {
    forall i :: 0 <= i < |s| ==> before(x, s[i])
  }

  lemma {:induction false} InsertIdSorted(seeding: Seeding, x: Id, s: seq<Id>)
    requires StrictOrder(seeding.idBefore) && SortedBy(seeding.idBefore, s) && x !in s
    ensures SortedBy(seeding.idBefore, InsertId(seeding, x, s))
    ensures forall y :: y in InsertId(seeding, x, s) <==> y == x || y in s
  {
    if s != [] && seeding.idBefore(s[0], x) {
      var rest := InsertId(seeding, x, s[1..]);
      InsertIdSorted(seeding, x, s[1..]);
      assert s == [s[0]] + s[1..];
      forall i | 0 <= i < |rest|
        ensures seeding.idBefore(s[0], rest[i])
      {
        assert rest[i] in rest;
        if rest[i] != x {
          var j :| 0 <= j < |s[1..]| && s[1..][j] == rest[i];
          assert s[j + 1] == rest[i];
        }
      }
    }
  }

  lemma {:induction false} SortIdsSorted(seeding: Seeding, s: seq<Id>)
    requires StrictOrder(seeding.idBefore) && Distinct(s)
    ensures SortedBy(seeding.idBefore, SortIds(seeding, s))
    ensures forall y :: y in SortIds(seeding, s) <==> y in s
  {
    if s != [] {
      SortIdsSorted(seeding, s[1..]);
      assert s == [s[0]] + s[1..];
      InsertIdSorted(seeding, s[0], SortIds(seeding, s[1..]));
    }
  }

  lemma {:induction false} InsertNameSorted(seeding: Seeding, f: Family, names: seq<Family>)
    requires StrictOrder(seeding.nameBefore) && SortedBy(seeding.nameBefore, names) && f !in names
    ensures SortedBy(seeding.nameBefore, InsertName(seeding, f, names))
  {
    if names != [] && seeding.nameBefore(names[0], f) {
      var rest := InsertName(seeding, f, names[1..]);
      InsertNameSorted(seeding, f, names[1..]);
      forall i | 0 <= i < |rest|
        ensures seeding.nameBefore(names[0], rest[i])
      {
        assert rest[i] in rest;
        if rest[i] != f {
          var j :| 0 <= j < |names[1..]| && names[1..][j] == rest[i];
          assert names[j + 1] == rest[i];
        }
      }
    }
  }

  lemma {:induction false} NamesSorted(seeding: Seeding, familyOf: Id -> Family, ids: seq<Id>)
    requires StrictOrder(seeding.nameBefore)
    ensures SortedBy(seeding.nameBefore, Names(seeding, familyOf, ids))
  {
    if ids != [] {
      NamesSorted(seeding, familyOf, ids[1..]);
      var rest := Names(seeding, familyOf, ids[1..]);
      if familyOf(ids[0]) !in rest {
        InsertNameSorted(seeding, familyOf(ids[0]), rest);
      }
    }
  }

  /** The ids of an id's own family that come before it. */
  ghost function Ahead(seeding: Seeding, familyOf: Id -> Family, ids: seq<Id>, x: Id): set<Id> {
    set y | y in ids && familyOf(y) == familyOf(x) && seeding.idBefore(y, x)
  }

  lemma {:induction false} MembersAre(familyOf: Id -> Family, ids: seq<Id>, f: Family)
    requires Distinct(ids)
    ensures var m := Members(familyOf, ids, {f});
            Distinct(m) && forall y :: y in m <==> y in ids && familyOf(y) == f
  {
    if ids != [] {
      MembersAre(familyOf, ids[1..], f);
      assert ids == [ids[0]] + ids[1..];
      var rest := Members(familyOf, ids[1..], {f});
      assert forall j :: 0 <= j < |rest| ==> rest[j] in rest && rest[j] in ids[1..];
    }
  }

  lemma {:induction false} DistinctCount(s: seq<Id>)
    requires Distinct(s)
    ensures |set y | y in s| == |s|
  {
    if s != [] {
      DistinctCount(s[1..]);
      NamesOf(s);
    }
  }

  /** In a sorted family an id stands behind as many others as come before it. */
  lemma PositionIsRank(seeding: Seeding, familyOf: Id -> Family, ids: seq<Id>, f: Family, p: nat)
    requires StrictOrder(seeding.idBefore) && Distinct(ids)
    requires p < |SortIds(seeding, Members(familyOf, ids, {f}))|
    ensures var x := SortIds(seeding, Members(familyOf, ids, {f}))[p];
            familyOf(x) == f && |Ahead(seeding, familyOf, ids, x)| == p
  {
    var members := Members(familyOf, ids, {f});
    var group := SortIds(seeding, members);
    MembersAre(familyOf, ids, f);
    SortIdsSorted(seeding, members);
    assert group[p] in group;
    SortedIsDistinct(seeding.idBefore, group);
    AheadIsPrefix(seeding, familyOf, ids, f, group, p);
    DistinctCount(group[..p]);
  }

  lemma SortedIsDistinct(before: (string, string) -> bool, s: seq<string>)
    requires StrictOrder(before) && SortedBy(before, s)
    ensures Distinct(s)
  {
  }

  lemma AheadIsPrefix(seeding: Seeding, familyOf: Id -> Family, ids: seq<Id>, f: Family, group: seq<Id>, p: nat)
    requires StrictOrder(seeding.idBefore) && SortedBy(seeding.idBefore, group) && p < |group|
    requires forall y :: y in group <==> y in ids && familyOf(y) == f
    ensures Ahead(seeding, familyOf, ids, group[p]) == set y | y in group[..p]
  {
    var x := group[p];
    assert x in group;
    forall y | y in Ahead(seeding, familyOf, ids, x)
      ensures y in group[..p]
    {
      assert y in group;
      var j :| 0 <= j < |group| && group[j] == y;
      assert j < p;
    }
    forall y | y in group[..p]
      ensures y in Ahead(seeding, familyOf, ids, x)
    {
      var j :| 0 <= j < p && group[..p][j] == y;
      assert group[j] == y && y in group;
    }
  }

  /** Every id of the groups knows its place. */
  ghost predicate Placed(groups: seq<seq<Id>>, first: nat, position: Id -> nat, group: Id -> nat) {
    forall k, i :: 0 <= k < |groups| && 0 <= i < |groups[k]| ==>
      position(groups[k][i]) == i && group(groups[k][i]) == first + k
  }

  /** One round: all at the same position, group after group. */
  ghost predicate OneRound(r: seq<Id>, i: nat, first: nat, position: Id -> nat, group: Id -> nat) {
    && (forall a :: 0 <= a < |r| ==> position(r[a]) == i && group(r[a]) >= first)
    && (forall a, b :: 0 <= a < b < |r| ==> group(r[a]) < group(r[b]))
  }

  lemma OneRoundMore(x: Id, rest: seq<Id>, i: nat, first: nat, position: Id -> nat, group: Id -> nat)
    requires OneRound(rest, i, first + 1, position, group) && position(x) == i && group(x) == first
    ensures OneRound([x] + rest, i, first, position, group)
  {
  }

  lemma {:induction false} RoundOrdered(groups: seq<seq<Id>>, i: nat, first: nat, position: Id -> nat, group: Id -> nat)
    requires Placed(groups, first, position, group)
    ensures OneRound(Round(groups, i), i, first, position, group)
  {
    if groups != [] {
      assert forall k :: 0 <= k < |groups[1..]| ==> groups[1..][k] == groups[k + 1];
      RoundOrdered(groups[1..], i, first + 1, position, group);
      if i < |groups[0]| {
        OneRoundMore(groups[0][i], Round(groups[1..], i), i, first, position, group);
      } else {
        LaterFirst(Round(groups[1..], i), i, first, position, group);
      }
    }
  }

  lemma LaterFirst(r: seq<Id>, i: nat, first: nat, position: Id -> nat, group: Id -> nat)
    requires OneRound(r, i, first + 1, position, group)
    ensures OneRound(r, i, first, position, group)
  {
  }

  /** First by position, then by group. */
  ghost predicate ByPlace(s: seq<Id>, position: Id -> nat, group: Id -> nat) {
    forall a, b :: 0 <= a < b < |s| ==>
      position(s[a]) < position(s[b]) || (position(s[a]) == position(s[b]) && group(s[a]) < group(s[b]))
  }

  lemma {:induction false} RoundsOrdered(groups: seq<seq<Id>>, i: nat, position: Id -> nat, group: Id -> nat)
    requires Placed(groups, 0, position, group)
    ensures var r := Rounds(groups, i);
            ByPlace(r, position, group) && forall a :: 0 <= a < |r| ==> position(r[a]) >= i
    decreases if i <= Longest(groups) then Longest(groups) - i + 1 else 0
  {
    if Round(groups, i) != [] {
      if i >= Longest(groups) {
        NoRoundAfterLongest(groups, i);
      }
      RoundOrdered(groups, i, 0, position, group);
      RoundsOrdered(groups, i + 1, position, group);
    }
  }

  function IndexIn(names: seq<Family>, f: Family): (k: nat)
    ensures k < |names| ==> names[k] == f
    ensures f in names ==> k < |names|
  {
    if names == [] || names[0] == f then 0 else 1 + IndexIn(names[1..], f)
  }

  lemma GroupAt(seeding: Seeding, familyOf: Id -> Family, ids: seq<Id>, names: seq<Family>, k: nat)
    requires k < |names|
    ensures |Groups(seeding, familyOf, ids, names)| == |names|
    ensures Groups(seeding, familyOf, ids, names)[k] == SortIds(seeding, Members(familyOf, ids, {names[k]}))
    decreases k
  {
    GroupCount(seeding, familyOf, ids, names);
    if k > 0 {
      GroupAt(seeding, familyOf, ids, names[1..], k - 1);
    }
  }

  lemma {:induction false} GroupCount(seeding: Seeding, familyOf: Id -> Family, ids: seq<Id>, names: seq<Family>)
    ensures |Groups(seeding, familyOf, ids, names)| == |names|
    decreases |names|
  {
    if names != [] {
      GroupCount(seeding, familyOf, ids, names[1..]);
    }
  }

  lemma GroupsPlaced(seeding: Seeding, familyOf: Id -> Family, ids: seq<Id>, names: seq<Family>,
                     position: Id -> nat, group: Id -> nat)
    requires StrictOrder(seeding.idBefore) && Distinct(ids) && Distinct(names)
    requires forall x :: position(x) == |Ahead(seeding, familyOf, ids, x)|
    requires forall x :: group(x) == IndexIn(names, familyOf(x))
    ensures Placed(Groups(seeding, familyOf, ids, names), 0, position, group)
  {
    var groups := Groups(seeding, familyOf, ids, names);
    GroupCount(seeding, familyOf, ids, names);
    forall k, i | 0 <= k < |groups| && 0 <= i < |groups[k]|
      ensures position(groups[k][i]) == i && group(groups[k][i]) == k
    {
      GroupAt(seeding, familyOf, ids, names, k);
      PositionIsRank(seeding, familyOf, ids, names[k], i);
      assert IndexIn(names, names[k]) == k;
    }
  }

  /** In the interleaved order an id comes before another exactly if fewer of its own family are ahead of it,
      or as many and its family's name is earlier. */
  lemma InterleavedInOrder(seeding: Seeding, familyOf: Id -> Family, ids: seq<Id>, a: nat, b: nat)
    requires StrictOrder(seeding.idBefore) && StrictOrder(seeding.nameBefore) && Distinct(ids)
    requires a < b < |Interleaved(seeding, familyOf, ids)|
    ensures var (x, y) := (Interleaved(seeding, familyOf, ids)[a], Interleaved(seeding, familyOf, ids)[b]);
            var (m, n) := (|Ahead(seeding, familyOf, ids, x)|, |Ahead(seeding, familyOf, ids, y)|);
            m < n || (m == n && seeding.nameBefore(familyOf(x), familyOf(y)))
  {
    var names := Names(seeding, familyOf, ids);
    var order := Interleaved(seeding, familyOf, ids);
    var position: Id -> nat := x => RankOf(seeding, familyOf, ids, x);
    var group: Id -> nat := x => IndexIn(names, familyOf(x));
    NamesDistinct(seeding, familyOf, ids);
    NamesSorted(seeding, familyOf, ids);
    GroupsPlaced(seeding, familyOf, ids, names, position, group);
    RoundsOrdered(Groups(seeding, familyOf, ids, names), 0, position, group);
    InterleavedRearranges(seeding, familyOf, ids);
    NamedAt(seeding, familyOf, ids, order, a);
    NamedAt(seeding, familyOf, ids, order, b);
  }

  ghost function RankOf(seeding: Seeding, familyOf: Id -> Family, ids: seq<Id>, x: Id): nat {
    |Ahead(seeding, familyOf, ids, x)|
  }

  lemma NamedAt(seeding: Seeding, familyOf: Id -> Family, ids: seq<Id>, order: seq<Id>, a: nat)
    requires multiset(order) == multiset(ids) && a < |order|
    ensures familyOf(order[a]) in Names(seeding, familyOf, ids)
  {
    assert order[a] in multiset(ids);
    var i :| 0 <= i < |ids| && ids[i] == order[a];
  }

  // ── the loop ─────────────────────────────────────────────────────────────────

  lemma {:induction false} RoundMore(groups: seq<seq<Id>>, k: nat, i: nat)
    requires k < |groups|
    ensures Round(groups[..k + 1], i) == Round(groups[..k], i) + if i < |groups[k]| then [groups[k][i]] else []
    decreases k
  {
    if k == 0 {
      assert groups[..1] == [groups[0]] && groups[..1][1..] == [] && groups[..0] == [];
    } else {
      assert groups[..k + 1][1..] == groups[1..][..k] && groups[..k][1..] == groups[1..][..k - 1];
      RoundMore(groups[1..], k - 1, i);
    }
  }

  /** One id of every family in turn, until a round adds nothing. */
  method TakeTurns(groups: seq<seq<Id>>) returns (order: seq<Id>)
    ensures order == Rounds(groups, 0)
  {
    order := [];
    var i := 0;
    while true
      invariant i >= 0 && Rounds(groups, 0) == order + Rounds(groups, i)
      decreases if i <= Longest(groups) then Longest(groups) - i + 1 else 0
    {
      var row: seq<Id> := [];
      for k := 0 to |groups|
        invariant row == Round(groups[..k], i)
      {
        RoundMore(groups, k, i);
        if i < |groups[k]| {
          row := row + [groups[k][i]];
        }
      }
      assert groups[..|groups|] == groups;
      if row == [] {
        break;
      }
      if i >= Longest(groups) {
        NoRoundAfterLongest(groups, i);
      }
      order := order + row;
      i := i + 1;
    }
  }
}
