# Plant cards and token enumeration, modelled in Dafny

This project models the client-side logic of a plant-stewardship web app. Each plant is an
ERC-721 token in an external registry contract. The logic turns on-chain plant records into
what the pages show. It has three parts:

- **The plant card** (`PlantCard`, pure). It derives the "Last Care" text (`Never`,
  `Just now` or `<days> days ago`) and the 30-day health rule. It picks the status badge
  (`Memorial`, `Healthy` or `Needs Care`), the photo URL (IPFS gateway or placeholder) and
  the passport link.
- **Token enumeration** (`Enumeration`, `MyPlants`, `Community`, `MyBadges`). This uses the
  index functions of the optional enumeration extension in the Specification section of
  EIP-721. Three page loops gather per-index reads under different failure policies:
  - the owner's plants skip a failed index;
  - the community list gathers every index as one `Promise.all` batch, which fails as a
    whole;
  - the badge list stops at the first failure and keeps the old list.
- **Small helpers**: the adoptable-only filter and its toggle, and the zero-padded `#NNN`
  badge label. `Decimal` models the JavaScript formatting the pages rely on (`${n}`,
  `toString`, `padStart`). It also has a parser, so the model can state what the text means.

Each page's React state (`plants`/`loading`, `allPlants`/`isLoadingAll`/`showAdoptable`,
`badges`/`loading`) is a class whose fetch method holds the source's loop. Each method is
proved against a specification function. The failure-policy and ordering properties are
proved as lemmas about those functions.

Abstractions:

- Every per-index contract read (`tokenOfOwnerByIndex`, `tokenByIndex`, `plants`,
  `getPlant`) is a total function parameter. It returns `Some(result)`, or `None` when the
  read throws.
- The results of the `balanceOf` and `totalSupply` queries are `Option<nat>` values: `None`
  while the query has no data.
- The clock is a parameter `nowMs`, the value `Date.now()` returns.
- Environment variables are `Option<string>` parameters. JavaScript truthiness is
  `IsSet`: defined and non-empty.
- JavaScript's floating-point `/` followed by `Math.floor` is an exact `real` quotient
  followed by `.Floor`. Lemmas then prove each day count equal to integer division.

A plant with no proof (`lastProofTime == 0`) might be expected to count as infinitely
overdue. The code instead counts days from the Unix epoch, and the model follows the code.
Such a plant would be healthy if the clock read less than 31 days after the epoch
(`PlantCard.NeverProvedNeedsCare` states the realistic case).

## Model

| member | source | states |
|---|---|---|
| `PlantCard.TimeAgoDaysIsIntegerDivision` | frontend/components/PlantCard.tsx:16-17 | the days shown are floor((floor(nowMs/1000) − timestamp) / 86400), as integer division |
| `PlantCard.NeverIffNoProof` | frontend/components/PlantCard.tsx:15 | the text is "Never" exactly when the timestamp is 0 |
| `PlantCard.JustNowIffFuture` | frontend/components/PlantCard.tsx:16-18 | the text is "Just now" exactly when a non-zero timestamp is later than the current whole second (negative day count) |
| `PlantCard.DaysAgoText` | frontend/components/PlantCard.tsx:16-19 | otherwise the text ends in " days ago" after a canonical decimal numeral that reads back as the whole days elapsed |
| `PlantCard.DaysSinceProofIsIntegerDivision` | frontend/components/PlantCard.tsx:23 | the health day count, computed on the unfloored clock, is (nowMs − 1000·lastProofTime) div 86400000 |
| `PlantCard.DayCountsAgree` | frontend/components/PlantCard.tsx:16-23 | the day count behind the health rule equals the day count shown by the "Last Care" text, for every clock and timestamp |
| `PlantCard.HealthyWindow` | frontend/components/PlantCard.tsx:23-24 | healthy exactly when nowMs < 1000·lastProofTime + 31 days in ms, so a future proof is healthy |
| `PlantCard.NeverProvedNeedsCare` | frontend/components/PlantCard.tsx:15-24 | with no proof and a clock at least 31 days after the epoch, the text reads "Never" and the plant is not healthy |
| `PlantCard.StatusBadgeCases` | frontend/components/PlantCard.tsx:44-54 | a memorialized plant shows "Memorial" whatever its health; otherwise "Healthy" iff healthy and "Needs Care" iff not |
| `PlantCard.BadgeAgreesWithLastCare` | frontend/components/PlantCard.tsx:14-54 | on one card, "Just now" implies "Healthy", and "<days> days ago" shows "Healthy" iff days ≤ 30 |
| `PlantCard.ImageSrcShape` | frontend/components/PlantCard.tsx:26-34 | no photo gives "/placeholder-plant.png"; otherwise "https://" + (configured gateway, or gateway.pinata.cloud) + "/ipfs/" + photo |
| `PlantCard.ImageSrcIsRemote` | frontend/components/PlantCard.tsx:34 | the image source starts with "https://" exactly when the record has a photo; the placeholder is a site-local path |
| `PlantCard.ImageSrcInjective` | frontend/components/PlantCard.tsx:26-34 | with the gateway fixed, equal image sources mean equal photo identifiers |
| `PlantCard.PassportHrefNamesPlant` | frontend/components/PlantCard.tsx:74 | the link is "/plant/" followed by a canonical numeral that reads back as the token id |
| `PlantCard.RenderCardStatus` | frontend/components/PlantCard.tsx:33-54 | the card is greyed out iff memorialized, shows "Memorial" iff memorialized, and otherwise shows "Healthy" iff healthy |
| `Decimal.Show` | frontend/components/PlantCard.tsx:19 | the decimal form of a number is a canonical numeral (digits only, no leading zero except "0") |
| `Decimal.ParseShow` | frontend/components/PlantCard.tsx:19 | reading back the decimal form gives the number |
| `Decimal.ShowParse` | frontend/components/PlantCard.tsx:19 | every canonical numeral is the decimal form of its value, so formatting is a bijection onto canonical numerals |
| `Decimal.ShowInjective` | frontend/components/PlantCard.tsx:19 | distinct numbers print differently |
| `Decimal.PadStart` | frontend/app/my-badges/page.tsx:85 | padStart yields max(length, target) characters, keeps the whole input at the end and fills the front with the pad character |
| `Decimal.ParseLeadingZeros` | frontend/app/my-badges/page.tsx:85 | zero-padding does not change a numeral's value |
| `Enumeration.PerIndex` | frontend/app/my-plants/page.tsx:51 | the reads cover indices 0..n−1 in increasing order, one outcome per index |
| `Enumeration.SuccessesAreTheSuccessfulIndices` | frontend/app/my-plants/page.tsx:51-79 | skip-on-failure keeps exactly the results of the successful indices, in index order, and no more results than indices |
| `Enumeration.AllOrNothing` | frontend/app/community/page.tsx:71-75 | the batch succeeds iff every read succeeds, and then has one result per index in index order |
| `Enumeration.PoliciesCompared` | frontend/app/my-plants/page.tsx:74-77 | the two policies agree when nothing fails; when something fails, all-or-nothing yields nothing and skipping yields strictly fewer results than indices |
| `MyPlants.FromTuple` | frontend/app/my-plants/page.tsx:65-73 | the record's id is the looked-up token id and tuple positions 0..5 become species, name, currentSteward, lastProofTime, latestPhotoIPFS, isMemorialized, losslessly |
| `MyPlants.OwnedPlantsSkipsFailures` | frontend/app/my-plants/page.tsx:48-79 | the list holds exactly the resolved indices' records, in index order, at most balance many, and each carries the token id and registry tuple of its index |
| `MyPlants.OwnedPlantsComplete` | frontend/app/my-plants/page.tsx:49-79 | when every index resolves, the list has one record per index, in order |
| `MyPlants.MyPlantsPage.constructor` | frontend/app/my-plants/page.tsx:26-27 | the page starts with no plants and not loading |
| `MyPlants.MyPlantsPage.FetchPlants` | frontend/app/my-plants/page.tsx:43-89 | with no balance, a zero balance, no account or no registry address, nothing changes; otherwise loading is true for the whole loop (loop invariant), the list is replaced once by the skip-on-failure result, and loading ends false |
| `Community.PlantAtIndex` | frontend/app/community/page.tsx:42-66 | index i resolves iff tokenByIndex(i) and then getPlant of that id both succeed, and the record's id is that token id |
| `Community.AllPlantsInIndexOrder` | frontend/app/community/page.tsx:37-72 | the batch succeeds iff every index below the supply resolves, and then position i holds tokenByIndex(i) with its getPlant struct |
| `Community.AdoptableIsOrderedSelection` | frontend/app/community/page.tsx:85-87 | the adoptable-only list is an order-preserving subsequence of the unmodified records that holds every adoptable record and nothing else, each adoptable record as many times as the full list holds it |
| `Community.AdoptableIdempotent` | frontend/app/community/page.tsx:85-87 | filtering twice equals filtering once |
| `Community.FilteredPlantsView` | frontend/app/community/page.tsx:85-87 | with the toggle off the page shows all plants; with it on, exactly the adoptable ones, in order, with every occurrence kept |
| `Community.CommunityPage.constructor` | frontend/app/community/page.tsx:14-31 | the page starts with no plants, loading, and the filter off |
| `Community.CommunityPage.FetchAllPlants` | frontend/app/community/page.tsx:33-83 | nothing runs until the supply is known (0 included); then the list becomes the whole batch, or stays as it was if any read failed, and isLoadingAll ends false either way |
| `Community.CommunityPage.ToggleAdoptable` | frontend/app/community/page.tsx:109 | the button negates the filter and leaves the list alone |
| `Community.CommunityPage.ClearAdoptable` | frontend/app/community/page.tsx:116 | the ✕ control switches the filter off, so every plant shows |
| `MyBadges.OwnedBadgesAllOrNothing` | frontend/app/my-badges/page.tsx:35-47 | the fetch succeeds iff every index below the balance resolves, and then lists one token id per index, in order, balance many |
| `MyBadges.BadgeLabelReadsBack` | frontend/app/my-badges/page.tsx:85 | the label is "#" then at least three characters, ends with the full decimal form of id+1 (never truncated), is zero-filled in front, and reads back as id+1 |
| `MyBadges.BadgeLabelInjective` | frontend/app/my-badges/page.tsx:85 | distinct badges never share a label |
| `MyBadges.BadgeLabelExamples` | frontend/app/my-badges/page.tsx:85 | token 0 is labelled "#001" and token 999 "#1000" |
| `MyBadges.MyBadgesPage.constructor` | frontend/app/my-badges/page.tsx:14-15 | the page starts with no badges and not loading |
| `MyBadges.MyBadgesPage.FetchBadges` | frontend/app/my-badges/page.tsx:30-56 | with no balance, a zero balance, no account or no badge address, nothing changes; otherwise loading is true for the whole loop (loop invariant), the first failure aborts it and keeps the old list, success installs all ids in order, and loading ends false |

## Left out

- Rendering, CSS, routing, the landing page, the navigation bar, the plant detail page and its `isOwner` comparison, and the form and transaction modals: presentational code or I/O plumbing outside this core.
- The wallet SDK and the contract reads: each read is an oracle parameter. The queries that produce `balance` and `totalSupply` are `Option<nat>` inputs.
- Asynchrony: the reads run one after another in index order. The `Promise.all` batch is an order-preserving map followed by the all-or-nothing gather. Completion order, stale-response races between effect re-runs, and effect re-triggering are not modelled.
- Floating point: `Date.now() / 1000` is an exact quotient. `Number(bigint)` is exact, which ignores precision loss above 2^53.
- Logging (`console.warn`, `console.error`) has no observable effect on the state and is dropped.
- `Community.CommunityPage.FetchAllPlants` never sets `isLoadingAll` back to true, because the source only starts it true. The model keeps this, so a re-run after the first finishes without a loading state.
