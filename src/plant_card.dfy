/** What a plant card derives from one on-chain plant record: the "Last Care" text, the
    30-day health rule, the status badge, the photo URL and the passport link.

    The clock is a parameter, `nowMs`, the value `Date.now()` would return (whole
    milliseconds since the Unix epoch). JavaScript divides it as a floating-point number and
    floors the quotient; here that division is exact (`real`) and `.Floor` is the floor, so
    every day count below is an integer floor of an exact quotient. */
module PlantCard {
  import opened Wrappers
  import opened Decimal

  const MillisPerSecond: nat := 1000
  const SecondsPerDay: nat := 3600 * 24
  /** A plant whose last proof is at most this many whole days old is healthy. */
  const CareWindowDays: nat := 30
  const DefaultGateway: string := "gateway.pinata.cloud"
  const PlaceholderImage: string := "/placeholder-plant.png"

  const NeverText: string := "Never"
  const JustNowText: string := "Just now"
  const DaysAgoSuffix: string := " days ago"

  const MemorialBadge: string := "Memorial"
  const HealthyBadge: string := "Healthy"
  const NeedsCareBadge: string := "Needs Care"

  /** The props a card receives: one plant record as the pages pass it on. */
  datatype PlantCardProps = PlantCardProps(
    id: nat,
    name: string,
    species: string,
    photo: string,
    lastProofTime: nat,   // Unix seconds; 0 means no proof yet
    isMemorialized: bool,
    currentSteward: string)

  /** What the card shows, as far as it depends on the record. */
  datatype CardView = CardView(
    imageSrc: string,
    grayscale: bool,
    badge: string,
    lastCare: string,
    passportHref: string)

  // ---------------------------------------------------------------- timeAgo

  /** `Math.floor(Date.now() / 1000) - Number(timestamp)`: whole seconds since the proof,
      with the clock floored to a whole second first. */
  function ElapsedSeconds(nowMs: nat, timestamp: nat): int
  {
    ((nowMs as real) / (MillisPerSecond as real)).Floor - timestamp
  }

  /** `Math.floor(seconds / (3600 * 24))`: negative when the timestamp lies in the future. */
  function TimeAgoDays(nowMs: nat, timestamp: nat): int
  {
    ((ElapsedSeconds(nowMs, timestamp) as real) / (SecondsPerDay as real)).Floor
  }

  /** The "Last Care" text. */
  function TimeAgo(nowMs: nat, timestamp: nat): string
  {
    if timestamp == 0 then NeverText
    else
      var days := TimeAgoDays(nowMs, timestamp);
      if days < 0 then JustNowText else Show(days) + DaysAgoSuffix
  }

  // ---------------------------------------------------------------- health

  /** `Math.floor((Date.now() / 1000 - Number(lastProofTime)) / (3600 * 24))`: unlike
      `TimeAgoDays`, the clock is not floored to a second before subtracting. */
  function DaysSinceProof(nowMs: nat, lastProofTime: nat): int
  {
    (((nowMs as real) / (MillisPerSecond as real) - lastProofTime as real) / (SecondsPerDay as real)).Floor
  }

  predicate IsHealthy(nowMs: nat, lastProofTime: nat)
  {
    DaysSinceProof(nowMs, lastProofTime) <= CareWindowDays
  }

  // ---------------------------------------------------------------- image, badge, link

  /** The configured gateway host when `NEXT_PUBLIC_GATEWAY_URL` is truthy, else Pinata's. */
  function GatewayHost(gatewayEnv: Option<string>): string
  {
    if IsSet(gatewayEnv) then gatewayEnv.value else DefaultGateway
  }

  function GatewayUrl(gatewayEnv: Option<string>, photo: string): string
  {
    "https://" + GatewayHost(gatewayEnv) + "/ipfs/" + photo
  }

  /** The `src` of the card's image: the placeholder when the record has no photo. */
  function ImageSrc(gatewayEnv: Option<string>, photo: string): string
  {
    if photo != "" then GatewayUrl(gatewayEnv, photo) else PlaceholderImage
  }

  function StatusBadge(isMemorialized: bool, nowMs: nat, lastProofTime: nat): string
  {
    if isMemorialized then MemorialBadge
    else if IsHealthy(nowMs, lastProofTime) then HealthyBadge
    else NeedsCareBadge
  }

  function PassportHref(id: nat): string
  {
    "/plant/" + Show(id)
  }

  function RenderCard(props: PlantCardProps, gatewayEnv: Option<string>, nowMs: nat): CardView
  {
    CardView(
      ImageSrc(gatewayEnv, props.photo),
      props.isMemorialized,
      StatusBadge(props.isMemorialized, nowMs, props.lastProofTime),
      TimeAgo(nowMs, props.lastProofTime),
      PassportHref(props.id))
  }

  // ================================================================ properties

  /** The exact quotient of an integer by a positive integer floors to Euclidean division. */
  lemma FloorOfQuotient(a: int, d: nat)
    requires d > 0
    ensures ((a as real) / (d as real)).Floor == a / d
  {
    var q, m := a / d, a % d;
    assert a == d * q + m;
    assert (a as real) == (d as real) * (q as real) + (m as real);
    assert (a as real) / (d as real) == (q as real) + (m as real) / (d as real);
    assert 0.0 <= (m as real) / (d as real) < 1.0;
  }

  /** The day count `timeAgo` shows is integer division of the floored clock. */
  lemma TimeAgoDaysIsIntegerDivision(nowMs: nat, timestamp: nat)
    ensures TimeAgoDays(nowMs, timestamp) == (nowMs / 1000 - timestamp) / 86400
  {
    FloorOfQuotient(nowMs, MillisPerSecond);
    FloorOfQuotient(ElapsedSeconds(nowMs, timestamp), SecondsPerDay);
  }

  /** The day count used for health is integer division of the unfloored clock, in milliseconds. */
  lemma DaysSinceProofIsIntegerDivision(nowMs: nat, lastProofTime: nat)
    ensures DaysSinceProof(nowMs, lastProofTime) == (nowMs - 1000 * lastProofTime) / 86400000
  {
    var a := nowMs - 1000 * lastProofTime;
    assert (nowMs as real) / 1000.0 - lastProofTime as real == (a as real) / 1000.0;
    assert ((a as real) / 1000.0) / 86400.0 == (a as real) / 86400000.0;
    FloorOfQuotient(a, 86400000);
  }

  /** Although `timeAgo` floors the clock to a second first and the health rule does not,
      both compute the same number of whole days. */
  lemma {:induction false} DayCountsAgree(nowMs: nat, timestamp: nat)
    ensures DaysSinceProof(nowMs, timestamp) == TimeAgoDays(nowMs, timestamp)
  {
    TimeAgoDaysIsIntegerDivision(nowMs, timestamp);
    DaysSinceProofIsIntegerDivision(nowMs, timestamp);
    NestedDivision(nowMs - 1000 * timestamp);
    var a := nowMs - 1000 * timestamp;
    assert a == 1000 * (nowMs / 1000 - timestamp) + nowMs % 1000;
    assert a / 1000 == nowMs / 1000 - timestamp;
  }

  lemma NestedDivision(a: int)
    ensures a / 86400000 == (a / 1000) / 86400
  {
    var q1, r1 := a / 1000, a % 1000;
    var q2, r2 := q1 / 86400, q1 % 86400;
    assert a == 86400000 * q2 + (1000 * r2 + r1);
  }

  /** "Never" is shown exactly when there is no proof timestamp. */
  lemma NeverIffNoProof(nowMs: nat, timestamp: nat)
    ensures TimeAgo(nowMs, timestamp) == NeverText <==> timestamp == 0
  {
    if timestamp != 0 && TimeAgoDays(nowMs, timestamp) >= 0 {
      assert |Show(TimeAgoDays(nowMs, timestamp)) + DaysAgoSuffix| > |NeverText|;
    }
  }

  /** "Just now" is shown exactly for a proof timestamp later than the current whole second. */
  lemma JustNowIffFuture(nowMs: nat, timestamp: nat)
    ensures TimeAgo(nowMs, timestamp) == JustNowText <==> timestamp != 0 && timestamp > nowMs / 1000
  {
    TimeAgoDaysIsIntegerDivision(nowMs, timestamp);
    if timestamp != 0 && TimeAgoDays(nowMs, timestamp) >= 0 {
      assert |Show(TimeAgoDays(nowMs, timestamp)) + DaysAgoSuffix| > |JustNowText|;
    }
  }

  /** Otherwise the text is "<days> days ago", where `<days>` reads back as the whole number of
      days since the proof. */
  lemma DaysAgoText(nowMs: nat, timestamp: nat)
    requires timestamp != 0 && timestamp <= nowMs / 1000
    ensures var text := TimeAgo(nowMs, timestamp);
      var digits := text[..|text| - |DaysAgoSuffix|];
      && |text| > |DaysAgoSuffix|
      && text[|text| - |DaysAgoSuffix|..] == DaysAgoSuffix
      && IsCanonical(digits)
      && Parse(digits) == (nowMs / 1000 - timestamp) / 86400
  {
    TimeAgoDaysIsIntegerDivision(nowMs, timestamp);
    var days: nat := TimeAgoDays(nowMs, timestamp);
    var text := Show(days) + DaysAgoSuffix;
    assert text[..|text| - |DaysAgoSuffix|] == Show(days);
    assert text[|text| - |DaysAgoSuffix|..] == DaysAgoSuffix;
    ParseShow(days);
  }

  /** The health rule in closed form: healthy until 31 whole days (in milliseconds) after the
      proof, so a proof timestamp in the future is always healthy. */
  lemma HealthyWindow(nowMs: nat, lastProofTime: nat)
    ensures IsHealthy(nowMs, lastProofTime) <==> nowMs < 1000 * lastProofTime + 31 * 86400000
  {
    DaysSinceProofIsIntegerDivision(nowMs, lastProofTime);
  }

  /** Without a proof the card reads "Never", yet the health rule counts days from the epoch:
      from 31 days after the epoch on, the plant needs care. */
  lemma NeverProvedNeedsCare(nowMs: nat)
    requires nowMs >= 31 * 86400000
    ensures TimeAgo(nowMs, 0) == NeverText && !IsHealthy(nowMs, 0)
  {
    HealthyWindow(nowMs, 0);
  }

  /** The badge: "Memorial" for a memorialized plant whatever its health; otherwise "Healthy"
      exactly when the health rule holds, and "Needs Care" when it does not. */
  lemma StatusBadgeCases(isMemorialized: bool, nowMs: nat, lastProofTime: nat)
    ensures isMemorialized ==> StatusBadge(isMemorialized, nowMs, lastProofTime) == MemorialBadge
    ensures !isMemorialized ==>
      (StatusBadge(isMemorialized, nowMs, lastProofTime) == HealthyBadge <==> IsHealthy(nowMs, lastProofTime))
    ensures !isMemorialized ==>
      (StatusBadge(isMemorialized, nowMs, lastProofTime) == NeedsCareBadge <==> !IsHealthy(nowMs, lastProofTime))
  {
    assert HealthyBadge != NeedsCareBadge by { assert |HealthyBadge| != |NeedsCareBadge|; }
    assert MemorialBadge != HealthyBadge by { assert |MemorialBadge| != |HealthyBadge|; }
    assert MemorialBadge != NeedsCareBadge by { assert |MemorialBadge| != |NeedsCareBadge|; }
  }

  /** The badge agrees with the "Last Care" text on the same card: a live plant whose proof is
      in the future is healthy, and one shown as "<days> days ago" is healthy exactly when
      `days` is at most 30. */
  lemma {:induction false} BadgeAgreesWithLastCare(nowMs: nat, lastProofTime: nat)
    requires lastProofTime != 0
    ensures TimeAgo(nowMs, lastProofTime) == JustNowText ==>
      StatusBadge(false, nowMs, lastProofTime) == HealthyBadge
    ensures TimeAgo(nowMs, lastProofTime) != JustNowText ==>
      (StatusBadge(false, nowMs, lastProofTime) == HealthyBadge <==>
       TimeAgoDays(nowMs, lastProofTime) <= CareWindowDays)
  {
    DayCountsAgree(nowMs, lastProofTime);
    JustNowIffFuture(nowMs, lastProofTime);
    TimeAgoDaysIsIntegerDivision(nowMs, lastProofTime);
    StatusBadgeCases(false, nowMs, lastProofTime);
  }

  /** The image is the placeholder exactly when the record has no photo; otherwise it is the
      photo's content identifier under `/ipfs/` on the gateway host. */
  lemma ImageSrcShape(gatewayEnv: Option<string>, photo: string)
    ensures photo == "" ==> ImageSrc(gatewayEnv, photo) == PlaceholderImage
    ensures photo != "" ==>
      var src := ImageSrc(gatewayEnv, photo);
      var host := if IsSet(gatewayEnv) then gatewayEnv.value else DefaultGateway;
      && src[..8] == "https://"
      && src[8..8 + |host|] == host
      && src[8 + |host|..8 + |host| + 6] == "/ipfs/"
      && src[8 + |host| + 6..] == photo
  {
    if photo != "" {
      var host := GatewayHost(gatewayEnv);
      var src := ImageSrc(gatewayEnv, photo);
      assert src == "https://" + host + "/ipfs/" + photo;
      assert src[..8] == "https://";
      assert src[8..8 + |host|] == host;
      assert src[8 + |host|..8 + |host| + 6] == "/ipfs/";
      assert src[8 + |host| + 6..] == photo;
    }
  }

  /** With the gateway fixed, the image URL determines the photo: two records show the same
      image only when they hold the same content identifier. */
  lemma {:induction false} ImageSrcInjective(gatewayEnv: Option<string>, photo1: string, photo2: string)
    requires ImageSrc(gatewayEnv, photo1) == ImageSrc(gatewayEnv, photo2)
    ensures photo1 == photo2
  {
    var prefix := "https://" + GatewayHost(gatewayEnv) + "/ipfs/";
    ImageSrcIsRemote(gatewayEnv, photo1);
    ImageSrcIsRemote(gatewayEnv, photo2);
    if photo1 != "" && photo2 != "" {
      assert ImageSrc(gatewayEnv, photo1) == prefix + photo1;
      assert ImageSrc(gatewayEnv, photo2) == prefix + photo2;
      assert photo1 == (prefix + photo1)[|prefix|..];
      assert photo2 == (prefix + photo2)[|prefix|..];
    }
  }

  /** The image source is a remote URL exactly when the record has a photo; the placeholder
      is a path on the site itself. */
  lemma ImageSrcIsRemote(gatewayEnv: Option<string>, photo: string)
    ensures var src := ImageSrc(gatewayEnv, photo);
      (|src| >= 8 && src[..8] == "https://") <==> photo != ""
  {
    if photo == "" {
      assert PlaceholderImage[0] == '/' != 'h' == "https://"[0];
    } else {
      ImageSrcShape(gatewayEnv, photo);
    }
  }

  /** The passport link names the plant: the detail page reads the token id back from it. */
  lemma PassportHrefNamesPlant(id: nat)
    ensures var href := PassportHref(id);
      href[..7] == "/plant/" && IsCanonical(href[7..]) && Parse(href[7..]) == id
  {
    var href := PassportHref(id);
    assert href[7..] == Show(id);
    ParseShow(id);
  }

  /** A memorialized plant's card is greyed out and badged "Memorial"; a live plant's card is
      in colour and carries the health badge. */
  lemma RenderCardStatus(props: PlantCardProps, gatewayEnv: Option<string>, nowMs: nat)
    ensures var view := RenderCard(props, gatewayEnv, nowMs);
      && view.grayscale == props.isMemorialized
      && (view.badge == MemorialBadge <==> props.isMemorialized)
      && (!props.isMemorialized ==> (view.badge == HealthyBadge <==> IsHealthy(nowMs, props.lastProofTime)))
  {
    StatusBadgeCases(props.isMemorialized, nowMs, props.lastProofTime);
  }
}
