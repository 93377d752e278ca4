/** The "Steward Badges" page: lists the badge tokens the connected account owns, read one
    owner-scoped index at a time from the badge contract. The first failed read abandons the
    whole loop and the list shown stays as it was. Each badge carries a label `#NNN`. */
module MyBadges {
  import opened Wrappers
  import opened Decimal
  import opened Enumeration

  /** The effect runs the fetch only with a non-zero balance, a connected account and a
      configured badge contract address. */
  predicate ShouldFetch(balance: Option<nat>, account: Option<Address>, badgeAddress: Option<string>)
  {
    balance.Some? && balance.value != 0 && account.Some? && IsSet(badgeAddress)
  }

  function Outcomes(owner: Address, count: nat, tokenOfOwnerByIndex: (Address, nat) -> Option<nat>): seq<Option<nat>>
  {
    PerIndex(count, (i: nat) => tokenOfOwnerByIndex(owner, i))
  }

  /** The badge ids of indices 0 .. count-1, or `None` when any read fails. */
  function OwnedBadges(owner: Address, count: nat, tokenOfOwnerByIndex: (Address, nat) -> Option<nat>): Option<seq<nat>>
  {
    AllOrNothing(Outcomes(owner, count, tokenOfOwnerByIndex))
  }

  /** The fetch succeeds exactly when every index below the balance resolves, and then lists
      one id per index, in index order. */
  lemma {:induction false} OwnedBadgesAllOrNothing(owner: Address, count: nat, tokenOfOwnerByIndex: (Address, nat) -> Option<nat>)
    ensures var ids := OwnedBadges(owner, count, tokenOfOwnerByIndex);
      && (ids.Some? <==> forall i :: 0 <= i < count ==> tokenOfOwnerByIndex(owner, i).Some?)
      && (ids.Some? ==>
            |ids.value| == count && forall i :: 0 <= i < count ==> tokenOfOwnerByIndex(owner, i) == Some(ids.value[i]))
  {
    var outcomes := Outcomes(owner, count, tokenOfOwnerByIndex);
    assert forall i :: 0 <= i < count ==> outcomes[i] == tokenOfOwnerByIndex(owner, i);
  }

  /** The label in a badge's corner: "#" and the 1-based number, zero-padded to three digits. */
  function BadgeLabel(id: nat): string
  {
    "#" + PadStart(Show(id + 1), 3, '0')
  }

  /** The label is "#" then at least three digits, never truncated: it ends with the whole
      decimal form of `id + 1`, any extra leading characters are zeros, and it reads back as
      `id + 1`. */
  lemma {:induction false} BadgeLabelReadsBack(id: nat)
    ensures var text := BadgeLabel(id);
      var digits := Show(id + 1);
      && text[0] == '#'
      && |text| == 1 + (if |digits| >= 3 then |digits| else 3)
      && text[|text| - |digits|..] == digits
      && (forall i :: 1 <= i < |text| - |digits| ==> text[i] == '0')
      && AllDigits(text[1..])
      && Parse(text[1..]) == id + 1
  {
    var digits := Show(id + 1);
    var padded := PadStart(digits, 3, '0');
    var text := BadgeLabel(id);
    assert text[1..] == padded;
    var k := |padded| - |digits|;
    assert padded == Repeat('0', k) + digits by {
      assert padded[..k] == Repeat('0', k);
      assert padded == padded[..k] + padded[k..];
    }
    ParseLeadingZeros(k, digits);
    ParseShow(id + 1);
  }

  /** Two badges never share a text. */
  lemma BadgeLabelInjective(id1: nat, id2: nat)
    requires BadgeLabel(id1) == BadgeLabel(id2)
    ensures id1 == id2
  {
    BadgeLabelReadsBack(id1);
    BadgeLabelReadsBack(id2);
  }

  /** Token 0 is "#001"; token 999 is "#1000", four digits and not cut to three. */
  lemma BadgeLabelExamples()
    ensures BadgeLabel(0) == "#001"
    ensures BadgeLabel(999) == "#1000"
  {
    assert Show(1) == "1";
    assert Repeat('0', 2) == "00";
    assert Show(1000) == "1000" by {
      assert Show(1) == "1";
      assert Show(10) == "10";
      assert Show(100) == "100";
    }
  }

  /** The page's state. */
  class MyBadgesPage {
    var badges: seq<nat>
    var loading: bool

    constructor ()
      ensures badges == [] && !loading
    {
      badges := [];
      loading := false;
    }

    /** `fetchBadges`, as the effect runs it. Without a balance, an account or a badge address
        nothing happens. Otherwise `loading` is true throughout the loop; the list is replaced
        by all `count` ids in index order when every read succeeds and kept as it was when one
        fails; and `loading` ends false on both paths. */
    method FetchBadges(
      balance: Option<nat>, account: Option<Address>, badgeAddress: Option<string>,
      tokenOfOwnerByIndex: (Address, nat) -> Option<nat>)
      modifies this
      ensures !ShouldFetch(balance, account, badgeAddress) ==>
        badges == old(badges) && loading == old(loading)
      ensures ShouldFetch(balance, account, badgeAddress) ==>
        && !loading
        && badges == match OwnedBadges(account.value, balance.value, tokenOfOwnerByIndex)
                     case Some(ids) => ids
                     case None => old(badges)
    {
      if !ShouldFetch(balance, account, badgeAddress) {
        return;
      }
      loading := true;
      var owner, count := account.value, balance.value;
      var fetchedBadges: seq<nat> := [];
      var failed := false;
      ghost var failedAt: nat := 0;
      for i := 0 to count
        invariant loading && badges == old(badges)
        invariant !failed
        invariant AllOrNothing(Outcomes(owner, i, tokenOfOwnerByIndex)) == Some(fetchedBadges)
      {
        ghost var next := Outcomes(owner, i + 1, tokenOfOwnerByIndex);
        assert next[..i] == Outcomes(owner, i, tokenOfOwnerByIndex);
        var tokenId := tokenOfOwnerByIndex(owner, i);
        if tokenId.None? {
          failed, failedAt := true, i;
          break;
        }
        fetchedBadges := fetchedBadges + [tokenId.value];
      }
      if failed {
        assert Outcomes(owner, count, tokenOfOwnerByIndex)[failedAt].None?;
      } else {
        badges := fetchedBadges;
      }
      loading := false;
    }
  }
}
