/** The "Community Garden" page: lists every registered plant. Each index below the total
    supply is resolved registry-wide (`tokenByIndex`, then `getPlant`, which returns a struct
    with the adoption fields). All reads are gathered as one batch (`Promise.all`): a single
    failure leaves the list as it was. A toggle narrows the list to plants up for adoption. */
module Community {
  import opened Wrappers
  import opened Enumeration

  /** The struct `getPlant(uint256)` returns. */
  datatype PlantStruct = PlantStruct(
    species: string,
    name: string,
    currentSteward: Address,
    lastProofTime: nat,
    latestPhotoIPFS: string,
    isMemorialized: bool,
    stewards: seq<Address>,
    isUpForAdoption: bool,
    location: string)

  /** A listed plant: the token id and the fields copied from its struct. */
  datatype CommunityPlant = CommunityPlant(id: nat, plant: PlantStruct)

  /** Resolving registry index `i`: `None` when either read throws. */
  function PlantAtIndex(
    i: nat,
    tokenByIndex: nat -> Option<nat>,
    getPlant: nat -> Option<PlantStruct>): (r: Option<CommunityPlant>)
    ensures r.Some? <==> tokenByIndex(i).Some? && getPlant(tokenByIndex(i).value).Some?
    ensures r.Some? ==> tokenByIndex(i) == Some(r.value.id) && getPlant(r.value.id) == Some(r.value.plant)
  {
    match tokenByIndex(i)
    case None => None
    case Some(tokenId) =>
      match getPlant(tokenId)
      case None => None
      case Some(plant) => Some(CommunityPlant(tokenId, plant))
  }

  function Outcomes(
    total: nat,
    tokenByIndex: nat -> Option<nat>,
    getPlant: nat -> Option<PlantStruct>): seq<Option<CommunityPlant>>
  {
    PerIndex(total, (i: nat) => PlantAtIndex(i, tokenByIndex, getPlant))
  }

  /** The batch: every plant in index order, or `None` when any read failed. */
  function AllPlants(
    total: nat,
    tokenByIndex: nat -> Option<nat>,
    getPlant: nat -> Option<PlantStruct>): Option<seq<CommunityPlant>>
  {
    AllOrNothing(Outcomes(total, tokenByIndex, getPlant))
  }

  /** The batch succeeds exactly when every index below the supply resolves, and then lists,
      at position `i`, the token `tokenByIndex(i)` with the struct `getPlant` returned for it:
      index order, whatever order the reads complete in, and no partial results. */
  lemma {:induction false} AllPlantsInIndexOrder(
    total: nat,
    tokenByIndex: nat -> Option<nat>,
    getPlant: nat -> Option<PlantStruct>)
    ensures var batch := AllPlants(total, tokenByIndex, getPlant);
      && (batch.Some? <==> forall i :: 0 <= i < total ==> PlantAtIndex(i, tokenByIndex, getPlant).Some?)
      && (batch.Some? ==>
            && |batch.value| == total
            && forall i :: 0 <= i < total ==>
                 && tokenByIndex(i) == Some(batch.value[i].id)
                 && getPlant(batch.value[i].id) == Some(batch.value[i].plant))
  {
    var outcomes := Outcomes(total, tokenByIndex, getPlant);
    assert forall i :: 0 <= i < total ==> outcomes[i] == PlantAtIndex(i, tokenByIndex, getPlant);
  }

  /** `allPlants.filter(p => p.isUpForAdoption)`, by prefix. */
  function Adoptable(plants: seq<CommunityPlant>): seq<CommunityPlant>
  {
    if plants == [] then []
    else
      var init := Adoptable(plants[..|plants| - 1]);
      var last := plants[|plants| - 1];
      if last.plant.isUpForAdoption then init + [last] else init
  }

  /** The list the page shows: everything, or only the adoptable plants when toggled on. */
  function FilteredPlants(allPlants: seq<CommunityPlant>, showAdoptable: bool): seq<CommunityPlant>
  {
    if showAdoptable then Adoptable(allPlants) else allPlants
  }

  /** `sub` is `s` with some elements left out, the rest unchanged and in their order. */
  ghost predicate IsSubsequence<T>(sub: seq<T>, s: seq<T>)
  {
    if sub == [] then true
    else if s == [] then false
    else if sub[|sub| - 1] == s[|s| - 1] then IsSubsequence(sub[..|sub| - 1], s[..|s| - 1])
    else IsSubsequence(sub, s[..|s| - 1])
  }

  /** The adoptable-only view keeps the plants up for adoption and no others, unmodified and in
      their order. */
  lemma {:induction false} AdoptableIsOrderedSelection(plants: seq<CommunityPlant>)
    ensures var r := Adoptable(plants);
      && IsSubsequence(r, plants)
      && (forall p :: p in r ==> p.plant.isUpForAdoption)
      && (forall p :: p in plants && p.plant.isUpForAdoption ==> p in r)
      && (forall p :: multiset(r)[p] == if p.plant.isUpForAdoption then multiset(plants)[p] else 0)
  {
    if plants != [] {
      var init := plants[..|plants| - 1];
      var last := plants[|plants| - 1];
      AdoptableIsOrderedSelection(init);
      assert plants == init + [last];
      assert multiset(plants) == multiset(init) + multiset{last};
      var r := Adoptable(plants);
      if last.plant.isUpForAdoption {
        assert r == Adoptable(init) + [last];
        assert r[..|r| - 1] == Adoptable(init);
        assert multiset(r) == multiset(Adoptable(init)) + multiset{last};
      } else {
        SubsequenceOfPrefix(r, init, last);
      }
    }
  }

  lemma SubsequenceOfPrefix<T>(sub: seq<T>, init: seq<T>, last: T)
    requires IsSubsequence(sub, init)
    ensures IsSubsequence(sub, init + [last])
    decreases |init|, 1
  {
    var s := init + [last];
    assert s[..|s| - 1] == init;
    if sub != [] && sub[|sub| - 1] == last {
      SubsequenceDropLast(sub, init);
    }
  }

  /** Dropping the last element of a subsequence keeps it a subsequence. */
  lemma {:induction false} SubsequenceDropLast<T>(sub: seq<T>, s: seq<T>)
    requires sub != [] && IsSubsequence(sub, s)
    ensures IsSubsequence(sub[..|sub| - 1], s)
    decreases |s|, 0
  {
    var front := sub[..|sub| - 1];
    var s0 := s[..|s| - 1];
    if sub[|sub| - 1] == s[|s| - 1] {
      SubsequenceOfPrefix(front, s0, s[|s| - 1]);
      assert s0 + [s[|s| - 1]] == s;
    } else {
      SubsequenceDropLast(sub, s0);
      SubsequenceOfPrefix(front, s0, s[|s| - 1]);
      assert s0 + [s[|s| - 1]] == s;
    }
  }

  /** Narrowing twice narrows no further. */
  lemma {:induction false} AdoptableIdempotent(plants: seq<CommunityPlant>)
    ensures Adoptable(Adoptable(plants)) == Adoptable(plants)
  {
    if plants != [] {
      var init := plants[..|plants| - 1];
      var last := plants[|plants| - 1];
      AdoptableIdempotent(init);
      if last.plant.isUpForAdoption {
        var r := Adoptable(plants);
        assert r[..|r| - 1] == Adoptable(init);
      }
    }
  }

  /** With the toggle off the page shows every plant; with it on, only plants up for adoption,
      each of them unmodified, in their order, and every such plant. */
  lemma FilteredPlantsView(allPlants: seq<CommunityPlant>, showAdoptable: bool)
    ensures !showAdoptable ==> FilteredPlants(allPlants, showAdoptable) == allPlants
    ensures showAdoptable ==>
      var r := FilteredPlants(allPlants, showAdoptable);
      && IsSubsequence(r, allPlants)
      && (forall p :: p in r ==> p.plant.isUpForAdoption)
      && (forall p :: p in allPlants && p.plant.isUpForAdoption ==> p in r)
      && (forall p :: multiset(r)[p] == if p.plant.isUpForAdoption then multiset(allPlants)[p] else 0)
  {
    AdoptableIsOrderedSelection(allPlants);
  }

  /** The page's state. `isLoadingAll` starts true and is only ever cleared. */
  class CommunityPage {
    var allPlants: seq<CommunityPlant>
    var isLoadingAll: bool
    var showAdoptable: bool

    constructor ()
      ensures allPlants == [] && isLoadingAll && !showAdoptable
    {
      allPlants := [];
      isLoadingAll := true;
      showAdoptable := false;
    }

    /** The plants on screen. */
    function Shown(): seq<CommunityPlant>
      reads this
    {
      FilteredPlants(allPlants, showAdoptable)
    }

    /** `fetchAllPlants`, as the effect runs it once the total supply is known (0 included).
        The list is replaced by the whole batch, or left as it was when any read failed; either
        way `isLoadingAll` ends false. The toggle is untouched. */
    method FetchAllPlants(
      totalSupply: Option<nat>,
      tokenByIndex: nat -> Option<nat>,
      getPlant: nat -> Option<PlantStruct>)
      modifies this
      ensures totalSupply.None? ==>
        allPlants == old(allPlants) && isLoadingAll == old(isLoadingAll)
      ensures totalSupply.Some? ==>
        && !isLoadingAll
        && allPlants == match AllPlants(totalSupply.value, tokenByIndex, getPlant)
                        case Some(batch) => batch
                        case None => old(allPlants)
      ensures showAdoptable == old(showAdoptable)
    {
      if totalSupply.None? {
        return;
      }
      var total := totalSupply.value;
      var plantPromises: seq<Option<CommunityPlant>> := [];
      for i := 0 to total
        invariant plantPromises == Outcomes(i, tokenByIndex, getPlant)
      {
        ghost var next := Outcomes(i + 1, tokenByIndex, getPlant);
        assert next[..i] == plantPromises;
        var p := PlantAtIndex(i, tokenByIndex, getPlant);
        plantPromises := plantPromises + [p];
      }
      var results := AllOrNothing(plantPromises);
      if results.Some? {
        allPlants := results.value;
      }
      isLoadingAll := false;
    }

    /** The filter button flips the toggle. */
    method ToggleAdoptable()
      modifies this
      ensures showAdoptable == !old(showAdoptable)
      ensures allPlants == old(allPlants) && isLoadingAll == old(isLoadingAll)
      ensures Shown() == if showAdoptable then Adoptable(allPlants) else allPlants
    {
      showAdoptable := !showAdoptable;
    }

    /** The ✕ inside the button switches the filter off, showing every plant again. */
    method ClearAdoptable()
      modifies this
      ensures !showAdoptable
      ensures allPlants == old(allPlants) && isLoadingAll == old(isLoadingAll)
      ensures Shown() == allPlants
    {
      showAdoptable := false;
    }
  }
}
