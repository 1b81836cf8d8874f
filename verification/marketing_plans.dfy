/** Display logic of the marketing-plan cards of the game dashboard: which
    of a game's active featurings belong to a plan, whether the plan is
    active, its price in credits, the list of unmet requirements, the status
    message and the plan icon. Messages and icons are tags instead of
    rendered nodes; the date of an "active until" message is kept as the raw
    millisecond timestamp. */
module MarketingPlans {
  import opened Wrappers

  /** The name of a promotional placement slot. */
  type Featuring = string

  /** A featuring a game currently holds; `expiresAt` is in seconds. */
  datatype GameFeaturing = GameFeaturing(featuring: Featuring, expiresAt: int)

  /** Optional boolean flags: `None` is a missing (`undefined`) field. */
  datatype GameRequirements = GameRequirements(
    hasThumbnail: Option<bool>,
    isPublished: Option<bool>,
    isDiscoverable: Option<bool>)

  datatype MarketingPlan = MarketingPlan(
    id: string,
    icon: string,
    includedFeaturings: seq<Featuring>,
    requiresManualContact: bool,
    gameRequirements: GameRequirements)

  /** The fields of a game the plan logic reads; the URL and build id may be
      missing. */
  datatype Game = Game(
    thumbnailUrl: Option<string>,
    publicWebBuildId: Option<string>,
    discoverable: bool)

  datatype UsagePrice = UsagePrice(priceInCredits: int)
  datatype Credits = Credits(prices: map<string, UsagePrice>)
  datatype Limits = Limits(credits: Credits)

  datatype PlanIcon = Speaker | Speedometer | Stars

  datatype ActiveMessage =
    | FixIssues                 // "Fix those issues to get the campaign up!"
    | ActiveUntil(expiresAtMs: int)
    | ActiveManualContact       // "Active, we will get in touch ..."
    | ActivePlain               // "Active"

  datatype RequirementError = NoThumbnail | NoPublicBuild | NotDiscoverable

  // ---------------------------------------------------------------------
  // JavaScript truthiness of the optional fields

  /** A string is truthy when present and non-empty. */
  predicate IsTruthyString(s: Option<string>) {
    s.Some? && |s.value| > 0
  }

  /** `!!flag` for an optional boolean. */
  predicate IsTrue(b: Option<bool>) {
    b == Some(true)
  }

  // ---------------------------------------------------------------------
  // Icon

  /** The `icon` string that selects each icon. */
  function IconName(i: PlanIcon): string {
    match i
    case Speaker => "speaker"
    case Speedometer => "speedometer"
    case Stars => "stars"
  }

  /** The icon of a plan: the one whose name is the plan's `icon` string,
      none for any other string. */
  function IconForMarketingPlan(plan: MarketingPlan): (r: Option<PlanIcon>)
    ensures r.Some? ==> IconName(r.value) == plan.icon
    ensures r.None? <==> forall i: PlanIcon :: IconName(i) != plan.icon
  {
    if plan.icon == "speaker" then Some(Speaker)
    else if plan.icon == "speedometer" then Some(Speedometer)
    else if plan.icon == "stars" then Some(Stars)
    else None
  }

  // ---------------------------------------------------------------------
  // Active featurings of a plan

  /** The order-preserving sub-list of `fs` whose featuring is included. */
  function FilterIncluded(included: seq<Featuring>, fs: seq<GameFeaturing>): (r: seq<GameFeaturing>)
    ensures |r| <= |fs|
    ensures forall g :: g in r <==> g in fs && g.featuring in included
    ensures forall g :: multiset(r)[g] == if g.featuring in included then multiset(fs)[g] else 0
  {
    if |fs| == 0 then []
    else
      assert fs == [fs[0]] + fs[1..];
      if fs[0].featuring in included then [fs[0]] + FilterIncluded(included, fs[1..])
      else FilterIncluded(included, fs[1..])
  }

  /** Filtering distributes over concatenation, so it keeps the relative
      order of the entries it retains. */
  lemma {:induction false} FilterIncludedAppend(included: seq<Featuring>, a: seq<GameFeaturing>, b: seq<GameFeaturing>)
    ensures FilterIncluded(included, a + b) == FilterIncluded(included, a) + FilterIncluded(included, b)
  {
    if |a| == 0 {
      assert a + b == b;
    } else {
      assert (a + b)[1..] == a[1..] + b;
      FilterIncludedAppend(included, a[1..], b);
    }
  }

  /** The position of the first entry of `fs` whose featuring is included,
      or `|fs|` when there is none. */
  function FirstIncludedIndex(included: seq<Featuring>, fs: seq<GameFeaturing>): (i: nat)
    ensures i <= |fs|
    ensures i < |fs| ==> fs[i].featuring in included
    ensures forall j :: 0 <= j < i ==> fs[j].featuring !in included
  {
    if |fs| == 0 then 0
    else if fs[0].featuring in included then 0
    else 1 + FirstIncludedIndex(included, fs[1..])
  }

  /** The filtered list is empty exactly when no entry is included, and
      otherwise starts with the first included entry of the input. */
  lemma {:induction false} FilterIncludedHead(included: seq<Featuring>, fs: seq<GameFeaturing>)
    ensures |FilterIncluded(included, fs)| == 0 <==> FirstIncludedIndex(included, fs) == |fs|
    ensures |FilterIncluded(included, fs)| > 0 ==>
              FilterIncluded(included, fs)[0] == fs[FirstIncludedIndex(included, fs)]
  {
    if |fs| > 0 && fs[0].featuring !in included {
      FilterIncludedHead(included, fs[1..]);
    }
  }

  /** The active featurings of the game that the plan includes; an absent
      list gives none. */
  function ActiveFeaturingsOfMarketingPlan(plan: MarketingPlan, active: Option<seq<GameFeaturing>>): (r: seq<GameFeaturing>)
    ensures active.None? ==> r == []
    ensures forall g :: g in r <==> active.Some? && g in active.value && g.featuring in plan.includedFeaturings
  {
    if active.None? then [] else FilterIncluded(plan.includedFeaturings, active.value)
  }

  // ---------------------------------------------------------------------
  // Is the plan active?

  /** Some entry of `fs` has the featuring `f`. */
  function AnyHasFeaturing(fs: seq<GameFeaturing>, f: Featuring): (r: bool)
    ensures r <==> exists i :: 0 <= i < |fs| && fs[i].featuring == f
  {
    if |fs| == 0 then false
    else if fs[0].featuring == f then true
    else
      var r := AnyHasFeaturing(fs[1..], f);
      assert r ==> exists i :: 0 <= i < |fs| && fs[i].featuring == f by {
        if r {
          var i :| 0 <= i < |fs[1..]| && fs[1..][i].featuring == f;
          assert fs[i + 1].featuring == f;
        }
      }
      r
  }

  /** Every included featuring is held by some entry of `fs`. */
  function AllIncludedActive(included: seq<Featuring>, fs: seq<GameFeaturing>): (r: bool)
    ensures r <==> forall k :: 0 <= k < |included| ==> AnyHasFeaturing(fs, included[k])
  {
    if |included| == 0 then true
    else
      var r := AnyHasFeaturing(fs, included[0]) && AllIncludedActive(included[1..], fs);
      assert r ==> forall k :: 0 <= k < |included| ==> AnyHasFeaturing(fs, included[k]) by {
        if r {
          forall k | 0 <= k < |included|
            ensures AnyHasFeaturing(fs, included[k])
          {
            if k > 0 {
              assert included[k] == included[1..][k - 1];
            }
          }
        }
      }
      r
  }

  /** A plan is active when the list is present and every featuring it
      includes is held by some active entry (vacuously so when it includes
      none). */
  function IsMarketingPlanActive(plan: MarketingPlan, active: Option<seq<GameFeaturing>>): (r: bool)
    ensures r <==> active.Some? &&
                   forall f :: f in plan.includedFeaturings ==>
                     exists g :: g in active.value && g.featuring == f
  {
    if active.None? then false
    else
      var r := AllIncludedActive(plan.includedFeaturings, active.value);
      assert r ==> forall f :: f in plan.includedFeaturings ==>
                     exists g :: g in active.value && g.featuring == f by {
        if r {
          forall f | f in plan.includedFeaturings
            ensures exists g :: g in active.value && g.featuring == f
          {
            var k :| 0 <= k < |plan.includedFeaturings| && plan.includedFeaturings[k] == f;
            var i :| 0 <= i < |active.value| && active.value[i].featuring == f;
            assert active.value[i] in active.value;
          }
        }
      }
      assert (forall f :: f in plan.includedFeaturings ==>
                exists g :: g in active.value && g.featuring == f) ==> r by {
        if forall f :: f in plan.includedFeaturings ==>
             exists g :: g in active.value && g.featuring == f {
          forall k | 0 <= k < |plan.includedFeaturings|
            ensures AnyHasFeaturing(active.value, plan.includedFeaturings[k])
          {
            var f := plan.includedFeaturings[k];
            assert f in plan.includedFeaturings;
            var g :| g in active.value && g.featuring == f;
            var i :| 0 <= i < |active.value| && active.value[i] == g;
          }
        }
      }
      r
  }

  /** An active plan that includes at least one featuring has at least one
      active featuring of its own, so the status message never falls into
      its "should not happen" branch for it. */
  lemma ActivePlanHasActiveFeaturings(plan: MarketingPlan, active: Option<seq<GameFeaturing>>)
    requires IsMarketingPlanActive(plan, active)
    requires |plan.includedFeaturings| > 0
    ensures |ActiveFeaturingsOfMarketingPlan(plan, active)| > 0
  {
  }

  // ---------------------------------------------------------------------
  // Price

  /** The plan's price in credits: none without limits or without an entry
      for the plan id; otherwise the entry's price, zero included. */
  function MarketingPlanPrice(plan: MarketingPlan, limits: Option<Limits>): (r: Option<int>)
    ensures r.Some? <==> limits.Some? && plan.id in limits.value.credits.prices
    ensures r.Some? ==> r.value == limits.value.credits.prices[plan.id].priceInCredits
  {
    if limits.None? then None
    else
      var prices := limits.value.credits.prices;
      if plan.id !in prices then None
      else Some(prices[plan.id].priceInCredits)
  }

  /** Whatever the table holds for other plans, an entry of `c` credits for
      the plan's id gives exactly `c`, zero included (the entry itself is
      tested, not its number); without the entry, or without limits, there
      is no price; other plans' prices do not depend on this entry. */
  lemma PriceOfEntry(plan: MarketingPlan, prices: map<string, UsagePrice>, c: int, other: MarketingPlan)
    requires other.id != plan.id
    ensures MarketingPlanPrice(plan, Some(Limits(Credits(prices[plan.id := UsagePrice(c)])))) == Some(c)
    ensures MarketingPlanPrice(plan, Some(Limits(Credits(prices - {plan.id})))) == None
    ensures MarketingPlanPrice(plan, None) == None
    ensures MarketingPlanPrice(other, Some(Limits(Credits(prices[plan.id := UsagePrice(c)])))) ==
            MarketingPlanPrice(other, Some(Limits(Credits(prices))))
  {
  }

  // ---------------------------------------------------------------------
  // Status message

  /** The status line of a plan card. */
  function ActiveMessageFor(plan: MarketingPlan, hasErrors: bool, active: Option<seq<GameFeaturing>>): (r: Option<ActiveMessage>)
    ensures hasErrors ==> r == Some(FixIssues)
    ensures !hasErrors ==>
              (r.None? <==> forall g :: g in active.GetOr([]) ==> g.featuring !in plan.includedFeaturings)
    ensures !hasErrors && r.Some? && plan.requiresManualContact ==> r.value == ActiveManualContact
    ensures !hasErrors && r.Some? && !plan.requiresManualContact ==>
              var i := FirstIncludedIndex(plan.includedFeaturings, active.value);
              i < |active.value| && r.value == ActiveUntil(active.value[i].expiresAt * 1000)
    ensures r != Some(ActivePlain)
  {
    if hasErrors then Some(FixIssues)
    else
      var forPlan := ActiveFeaturingsOfMarketingPlan(plan, active);
      if |forPlan| == 0 then
        None
      else
        var first := forPlan[0];
        assert first in forPlan;
        FilterIncludedHead(plan.includedFeaturings, active.value);
        if !plan.requiresManualContact then Some(ActiveUntil(first.expiresAt * 1000))
        else if plan.requiresManualContact then Some(ActiveManualContact)
        else Some(ActivePlain)
  }

  /** Without errors, an active plan that includes a featuring always gets a
      message. */
  lemma ActivePlanHasMessage(plan: MarketingPlan, active: Option<seq<GameFeaturing>>)
    requires IsMarketingPlanActive(plan, active)
    requires |plan.includedFeaturings| > 0
    ensures ActiveMessageFor(plan, false, active).Some?
  {
  }

  // ---------------------------------------------------------------------
  // Requirement errors

  /** Position of each error in the list. */
  function Rank(e: RequirementError): nat {
    match e
    case NoThumbnail => 0
    case NoPublicBuild => 1
    case NotDiscoverable => 2
  }

  /** The errors whose condition fires, in the fixed order thumbnail,
      public build, discoverability. */
  function CollectErrors(thumbnail: bool, publicBuild: bool, discoverable: bool): (r: seq<RequirementError>)
    ensures |r| <= 3
    ensures forall i, j :: 0 <= i < j < |r| ==> Rank(r[i]) < Rank(r[j])
    ensures NoThumbnail in r <==> thumbnail
    ensures NoPublicBuild in r <==> publicBuild
    ensures NotDiscoverable in r <==> discoverable
  {
    (if thumbnail then [NoThumbnail] else []) +
    (if publicBuild then [NoPublicBuild] else []) +
    (if discoverable then [NotDiscoverable] else [])
  }

  /** The unmet requirements of a plan for a game, as written: the public
      build error fires when publishing is NOT required. */
  function RequirementsErrors(game: Game, plan: MarketingPlan): (r: seq<RequirementError>)
    ensures |r| <= 3
    ensures forall i, j :: 0 <= i < j < |r| ==> Rank(r[i]) < Rank(r[j])
    ensures NoThumbnail in r <==>
              IsTrue(plan.gameRequirements.hasThumbnail) && !IsTruthyString(game.thumbnailUrl)
    ensures NoPublicBuild in r <==>
              !IsTrue(plan.gameRequirements.isPublished) && !IsTruthyString(game.publicWebBuildId)
    ensures NotDiscoverable in r <==>
              IsTrue(plan.gameRequirements.isDiscoverable) && !game.discoverable
  {
    var req := plan.gameRequirements;
    CollectErrors(
      IsTrue(req.hasThumbnail) && !IsTruthyString(game.thumbnailUrl),
      !IsTrue(req.isPublished) && !IsTruthyString(game.publicWebBuildId),
      IsTrue(req.isDiscoverable) && !game.discoverable)
  }

  /** The requirement check with the public build error tied to the plan
      requiring publication, as the other two checks are. */
  function IntendedRequirementsErrors(game: Game, plan: MarketingPlan): (r: seq<RequirementError>)
    ensures |r| <= 3
    ensures forall i, j :: 0 <= i < j < |r| ==> Rank(r[i]) < Rank(r[j])
    ensures NoThumbnail in r <==>
              IsTrue(plan.gameRequirements.hasThumbnail) && !IsTruthyString(game.thumbnailUrl)
    ensures NoPublicBuild in r <==>
              IsTrue(plan.gameRequirements.isPublished) && !IsTruthyString(game.publicWebBuildId)
    ensures NotDiscoverable in r <==>
              IsTrue(plan.gameRequirements.isDiscoverable) && !game.discoverable
  {
    var req := plan.gameRequirements;
    CollectErrors(
      IsTrue(req.hasThumbnail) && !IsTruthyString(game.thumbnailUrl),
      IsTrue(req.isPublished) && !IsTruthyString(game.publicWebBuildId),
      IsTrue(req.isDiscoverable) && !game.discoverable)
  }

  /** A plan that requires nothing of a game still reports a missing public
      build, and one that requires publication does not. */
  lemma PublicBuildCheckInverted()
    ensures var game := Game(Some("thumb.png"), None, true);
            var req := GameRequirements(None, Some(true), None);
            var plan := MarketingPlan("plan", "stars", [], false, req);
            && RequirementsErrors(game, plan) == []
            && IntendedRequirementsErrors(game, plan) == [NoPublicBuild]
            && RequirementsErrors(game, plan.(gameRequirements := GameRequirements(None, None, None))) == [NoPublicBuild]
  {
  }

  /** A game with no thumbnail URL but a public build, discoverable, checked
      against a plan requiring a thumbnail and publication gets exactly one
      error: the missing thumbnail. */
  lemma MissingThumbnailOnly()
    ensures var game := Game(None, Some("build-1"), true);
            var req := GameRequirements(Some(true), Some(true), None);
            RequirementsErrors(game, MarketingPlan("plan", "stars", [], false, req)) == [NoThumbnail]
  {
  }
}
