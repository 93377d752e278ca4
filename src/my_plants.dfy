/** The "My Plants" page: lists the plants the connected account owns. Each owned token is
    resolved in two reads (its id by owner-scoped index, then its record from the registry's
    `plants(id)` getter, which returns a positional tuple). A failed index is skipped. */
module MyPlants {
  import opened Wrappers
  import opened Enumeration

  /** `plants(uint256)` returns (species, name, currentSteward, lastProofTime,
      latestPhotoIPFS, isMemorialized) by position. */
  type PlantTuple = (string, string, Address, nat, string, bool)

  datatype PlantData = PlantData(
    id: nat,
    species: string,
    name: string,
    currentSteward: Address,
    lastProofTime: nat,
    latestPhotoIPFS: string,
    isMemorialized: bool)

  /** The record pushed for one token: the token id from the index lookup, then tuple
      positions 0 .. 5 in order. Nothing of the tuple is lost. */
  function FromTuple(tokenId: nat, details: PlantTuple): (p: PlantData)
    ensures p.id == tokenId
    ensures (p.species, p.name, p.currentSteward, p.lastProofTime, p.latestPhotoIPFS, p.isMemorialized) == details
  {
    PlantData(tokenId, details.0, details.1, details.2, details.3, details.4, details.5)
  }

  /** The effect runs the fetch only with a non-zero balance, a connected account and a
      configured registry address. */
  predicate ShouldFetch(balance: Option<nat>, account: Option<Address>, registry: Option<string>)
  {
    balance.Some? && balance.value != 0 && account.Some? && IsSet(registry)
  }

  /** Resolving index `i` of `owner`'s tokens: `None` when either read throws. */
  function PlantAt(
    owner: Address, i: nat,
    tokenOfOwnerByIndex: (Address, nat) -> Option<nat>,
    plants: nat -> Option<PlantTuple>): Option<PlantData>
  {
    match tokenOfOwnerByIndex(owner, i)
    case None => None
    case Some(tokenId) =>
      match plants(tokenId)
      case None => None
      case Some(details) => Some(FromTuple(tokenId, details))
  }

  function Outcomes(
    owner: Address, count: nat,
    tokenOfOwnerByIndex: (Address, nat) -> Option<nat>,
    plants: nat -> Option<PlantTuple>): seq<Option<PlantData>>
  {
    PerIndex(count, (i: nat) => PlantAt(owner, i, tokenOfOwnerByIndex, plants))
  }

  /** The list the page shows after a fetch: skip-on-failure over indices 0 .. count-1. */
  function OwnedPlants(
    owner: Address, count: nat,
    tokenOfOwnerByIndex: (Address, nat) -> Option<nat>,
    plants: nat -> Option<PlantTuple>): seq<PlantData>
  {
    Successes(Outcomes(owner, count, tokenOfOwnerByIndex, plants))
  }

  /** The indices of `owner`'s tokens whose two reads both succeeded, in increasing order. */
  function ResolvedIndices(
    owner: Address, count: nat,
    tokenOfOwnerByIndex: (Address, nat) -> Option<nat>,
    plants: nat -> Option<PlantTuple>): seq<nat>
  {
    SuccessIndices(Outcomes(owner, count, tokenOfOwnerByIndex, plants))
  }

  /** The list holds exactly the records of the indices that resolved, in index order, so it is
      no longer than the balance; each record carries the token id its index resolved to and
      the registry's tuple for that id. */
  lemma {:induction false} OwnedPlantsSkipsFailures(
    owner: Address, count: nat,
    tokenOfOwnerByIndex: (Address, nat) -> Option<nat>,
    plants: nat -> Option<PlantTuple>)
    ensures var list := OwnedPlants(owner, count, tokenOfOwnerByIndex, plants);
      var idx := ResolvedIndices(owner, count, tokenOfOwnerByIndex, plants);
      && |list| == |idx| <= count
      && Increasing(idx)
      && (forall i :: 0 <= i < count ==>
            (i in idx <==> PlantAt(owner, i, tokenOfOwnerByIndex, plants).Some?))
      && (forall k :: 0 <= k < |idx| ==>
            && idx[k] < count
            && tokenOfOwnerByIndex(owner, idx[k]) == Some(list[k].id)
            && plants(list[k].id) == Some((list[k].species, list[k].name, list[k].currentSteward,
                                           list[k].lastProofTime, list[k].latestPhotoIPFS,
                                           list[k].isMemorialized)))
  {
    var outcomes := Outcomes(owner, count, tokenOfOwnerByIndex, plants);
    SuccessesAreTheSuccessfulIndices(outcomes);
    var list, idx := Successes(outcomes), SuccessIndices(outcomes);
    forall k | 0 <= k < |idx|
      ensures tokenOfOwnerByIndex(owner, idx[k]) == Some(list[k].id)
      ensures plants(list[k].id) == Some((list[k].species, list[k].name, list[k].currentSteward,
                                          list[k].lastProofTime, list[k].latestPhotoIPFS,
                                          list[k].isMemorialized))
    {
      assert outcomes[idx[k]] == PlantAt(owner, idx[k], tokenOfOwnerByIndex, plants);
    }
  }

  /** When every index resolves, the list has one record per owned token, in index order. */
  lemma OwnedPlantsComplete(
    owner: Address, count: nat,
    tokenOfOwnerByIndex: (Address, nat) -> Option<nat>,
    plants: nat -> Option<PlantTuple>)
    requires forall i :: 0 <= i < count ==> PlantAt(owner, i, tokenOfOwnerByIndex, plants).Some?
    ensures var list := OwnedPlants(owner, count, tokenOfOwnerByIndex, plants);
      |list| == count &&
      forall i :: 0 <= i < count ==> Some(list[i]) == PlantAt(owner, i, tokenOfOwnerByIndex, plants)
  {
    var outcomes := Outcomes(owner, count, tokenOfOwnerByIndex, plants);
    PoliciesCompared(outcomes);
  }

  /** The page's state: the list shown and the loading flag. */
  class MyPlantsPage {
    var plants: seq<PlantData>
    var loading: bool

    constructor ()
      ensures plants == [] && !loading
    {
      plants := [];
      loading := false;
    }

    /** `fetchPlants`, as the effect runs it. Without a balance, an account or a registry
        address nothing happens. Otherwise `loading` is true throughout the loop, the list is
        replaced once, after the loop, by the skip-on-failure result, and `loading` ends false. */
    method FetchPlants(
      balance: Option<nat>, account: Option<Address>, registry: Option<string>,
      tokenOfOwnerByIndex: (Address, nat) -> Option<nat>,
      plantsOf: nat -> Option<PlantTuple>)
      modifies this
      ensures !ShouldFetch(balance, account, registry) ==>
        plants == old(plants) && loading == old(loading)
      ensures ShouldFetch(balance, account, registry) ==>
        plants == OwnedPlants(account.value, balance.value, tokenOfOwnerByIndex, plantsOf) && !loading
    {
      if !ShouldFetch(balance, account, registry) {
        return;
      }
      loading := true;
      var owner, count := account.value, balance.value;
      var fetchedPlants: seq<PlantData> := [];
      for i := 0 to count
        invariant loading && plants == old(plants)
        invariant fetchedPlants == Successes(Outcomes(owner, i, tokenOfOwnerByIndex, plantsOf))
      {
        ghost var before := Outcomes(owner, i, tokenOfOwnerByIndex, plantsOf);
        ghost var after := Outcomes(owner, i + 1, tokenOfOwnerByIndex, plantsOf);
        assert after[..i] == before;
        var tokenId := tokenOfOwnerByIndex(owner, i);
        if tokenId.None? {
          continue;
        }
        var details := plantsOf(tokenId.value);
        if details.None? {
          continue;
        }
        fetchedPlants := fetchedPlants + [FromTuple(tokenId.value, details.value)];
      }
      plants := fetchedPlants;
      loading := false;
    }
  }
}
