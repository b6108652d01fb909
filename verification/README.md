# Rio, verified models

Rio turns Kubernetes services into weighted, routed applications. This project models the parts of
it that carry the hardest guarantees and proves those guarantees for all inputs and all runs:

- **Rollouts** (`Float64`, `Services`, `Rollout`, `RolloutRuns`, `RolloutSafety`, `RolloutSchedules`,
  `Weights`, `Traffic`, `Promote`). A command turns a target percentage into a goal weight and an increment, the
  rollout controller moves every revision's computed weight towards its goal pass by pass, and the
  gateway turns weights into percentages. `Rollout.Pass` is one call of the controller as a function;
  `RolloutHandler` does the same in place on shared service objects.
- **Questions** (`Questions`, `QuestionSession`). The session that asks for template answers: a
  depth-first search over question objects with cycle detection.
- **Features** (`Features`). Which features a configuration enables, starting them after their
  requirements, and writing the configuration back.
- **Routers** (`Gloo`, `GlooRouter`, `GlooMeaning`). An ordered rule list compiled to a Gloo virtual
  service and its TLS copies, patched by index and prefixed with ACME challenge routes (section 8.3 of
  RFC 8555), and what rule and route each do with a request.
- **Printers and parsers** (`Strings`, `Permissions`, `Ports`, `ResourceIDs`).

`Prelude` holds the shared vocabulary. `dafny verify dfyconfig.toml` checks everything.

## Arithmetic

The rollout code computes five quantities through float64. `Float64Model.Arithmetic` bundles them as
functions of their integer operands, and `Float64Model.Float64` states how far they may lie from exact
arithmetic: a truncated value may be one low when the exact value is an integer, a rounded value may
fall on either side of a tie, and comparisons with exactly representable rates are exact. For weights
of ordinary size (below 2^24) this is meant to cover what float64 does; the bounds themselves are an
assumption, not a theorem about float64. Every rollout theorem holds for every such
arithmetic; `ExactIsFloat64` shows exact arithmetic to be one.

## Where the code departs from what it promises

- An increment of 1 can stall: `PassProgress` gives the exact condition (`Stuck`), which includes the
  way down from below 1.5 times the goal, and `StallsForever` shows it is permanent. Promotion still
  gets through (`PromoteEndToEnd`, `PromoteAnySchedule`), because the other revisions head for zero.
- A weight set for a target percentage may read back as another one next to small totals
  (`SmallTotalsDoNot`). `ReadsBackExactly` gives the condition; from a total of 198 on it always holds.
- The documentation says an app endpoint returns only versions with a positive weight
  (`docs/workloads.md`, line 120). An app all of whose revisions are off serves them all
  (`AllOffServed`), and the last target collects what truncation loses, so it may be served though it
  is off. For every arithmetic and every position, `OffExactly` says when. Shares that are not whole
  percents always lose something (`OffRevisionServed`), and float64 may lose a whole percent too
  (`OffRevisionServedByRounding`).
- HTTPS redirects are meant for the plain service only. A rule that redirects to HTTPS without a
  destination or a mirror redirects on the TLS copy too: `RedirectsOnlyOnPlain` is the exact condition,
  `RedirectLoopExample` a router.
- A rule's scheme condition is not translated at all (`SchemeIsDropped`, `SchemeIsDroppedExample`).
- A mirror is dropped if the rule has destinations and otherwise replaces what it does
  (`MirrorExample`), the per-try timeout of a retry is taken from the rule and not from the retry block
  (`PerTryTimeoutKept`, `PerTryTimeoutExample`), and numbers beyond 32 bits wrap (`WrapExample`).
- Rewriting the path (`docs/router.md`, line 106) uses the proxy's prefix rewrite, which swaps only the
  prefix that the route matched: a rule for every path that rewrites to /path sends /foo to /pathfoo
  (`RewriteExample`). `FatePreserved` shows that nothing else is lost: a route does with a request what
  its rule says exactly when the rule and the request are free of these.
- Setting a header appends like adding one (`SetIsAdd`), as the API comments say but the name does not.
  A header that is set once has just the new value exactly when the request does not bring it, or it is
  removed, and it is not also added (`SetReplacesNothing`).
- A permission all of whose words are URLs makes the parser index an empty list; the model records it as
  the error `IndexOutOfRange`. `ParseIndexesEmptyList` is the exact condition, and the printer produces
  such texts (`PrintedURLOnly`).

## Model

| member | source | states |
|---|---|---|
| `Float64Model.ExactIsFloat64` | modules/service/controllers/rollout/controller.go:207-228 | exact arithmetic satisfies the deviation bounds that every rollout theorem assumes, so none of them is vacuous |
| `Float64Model.FluxBounds` | modules/service/controllers/rollout/controller.go:207-228 | a scaled increment lies between half and five quarters of the increment, never shrinks from rate 1 on, and an increment of 1 vanishes exactly below rate 1 |
| `Float64Model.RateBelowOne` | modules/service/controllers/rollout/controller.go:211-226 | the rate is below 1 exactly when the weight is below half the goal, or above the goal but below 1.5 times it |
| `Services.AppAndVersion` | pkg/services/service.go:7-23 | an app name exists whenever the object has a name; an unset version is the UID or its first eight characters |
| `Rollout.RolloutHandler.constructor` | modules/service/controllers/rollout/controller.go:29-36 | a new handler has recorded no writes |
| `Rollout.RolloutHandler.Rollout` | modules/service/controllers/rollout/controller.go:41-133 | a service that is gone, without an app name or not indexed ends the call without a change; otherwise the handler performs one `Pass` in place on the non-template services, records write times, writes the updated statuses in order up to the first that fails, and leaves templates alone |
| `Rollout.RolloutHandler.RolloutAll` | modules/service/controllers/rollout/controller.go:64-133 | the same for the services of one app once templates are gone; an error is reported exactly when a status write fails |
| `Rollout.RolloutHandler.StartWeights` | modules/service/controllers/rollout/controller.go:64-79 | the split happens only when no revision has a weight, and then marks every revision for writing |
| `Rollout.RolloutHandler.AdjustAll` | modules/service/controllers/rollout/controller.go:91-127 | the loop applies the per-revision step in order, each step seeing the weights already changed |
| `Rollout.RolloutHandler.Adjust` | modules/service/controllers/rollout/controller.go:92-126 | one iteration of the loop: skip, wait, land, or move one scaled increment |
| `Rollout.FilterTemplates` | modules/service/controllers/rollout/controller.go:53-59 | exactly the services that are not templates, in order |
| `Rollout.AnyComputed` | modules/service/controllers/rollout/controller.go:167-174 | whether some revision has a computed weight |
| `Rollout.AnyHolds` | modules/service/controllers/rollout/controller.go:81-90 | whether a revision is paused, or unready with a positive goal |
| `Rollout.OthersOff` | modules/service/controllers/rollout/controller.go:178-187 | whether every service of another name has weight zero or none |
| `Rollout.SplitEvenly` | modules/service/controllers/rollout/controller.go:66-79 | the even split in place |
| `Rollout.UpdateServices` | modules/service/controllers/rollout/controller.go:135-145 | the services whose key needs an update are written in order, all of them or up to the first that fails |
| `Rollout.SplitKeepsSpecs` | modules/service/controllers/rollout/controller.go:66-90 | the split does not change whether the rollout is blocked |
| `RolloutRuns.KeysIdentify` | modules/service/controllers/rollout/controller.go:152-154 | within one app and namespace, distinct names have distinct keys |
| `RolloutRuns.StepDistance` | modules/service/controllers/rollout/controller.go:98-125 | a due step brings a revision strictly closer to its goal unless it is stuck, and then does not move it |
| `RolloutRuns.PassProgress` | modules/service/controllers/rollout/controller.go:91-127 | a due pass lowers the total distance exactly when some revision off its goal is not stuck, and otherwise keeps every weight; specs never change |
| `RolloutRuns.GoalIsFixpoint` | modules/service/controllers/rollout/controller.go:91-132 | with every revision at its goal a pass changes nothing and writes no status |
| `RolloutRuns.ReadyAgain` | modules/service/controllers/rollout/controller.go:101-121 | after a pass, one interval later every revision is due again |
| `RolloutRuns.Converges` | modules/service/controllers/rollout/controller.go:91-132 | with increments of at least 2 or goals below 100, as many due ticks as the total distance reach all goals, which is a fixpoint without writes |
| `RolloutRuns.StallsForever` | modules/service/controllers/rollout/controller.go:109-118 | once every revision off its goal is stuck, no number of due ticks moves any weight |
| `RolloutRuns.StallExample` | modules/service/controllers/rollout/controller.go:109-118 | a concrete app, due and unblocked, that is off its goal and stuck |
| `RolloutSafety.InitialSplitIsExact` | modules/service/controllers/rollout/controller.go:64-79 | the first weights are non-negative and sum to exactly 10000 |
| `RolloutSafety.BlockedRunFrozen` | modules/service/controllers/rollout/controller.go:64-90 | while blocked, no run changes a revision's computed weight beyond that one split, whatever is edited, reordered, added or removed around it |
| `RolloutSafety.NeverFurther` | modules/service/controllers/rollout/controller.go:64-127 | no pass, due or not, blocked or not, takes any revision further from its goal; a first pass is measured from its even split |
| `RolloutSafety.ChangedIsWritten` | modules/service/controllers/rollout/controller.go:65-128 | every weight a pass changes is marked for a status write |
| `RolloutSafety.PassOutcome` | modules/service/controllers/rollout/controller.go:64-127 | one pass leaves a revision's weight alone, moves it to its goal, or moves it one scaled increment towards it, from its even split in a first pass; in a due pass every revision off its goal takes its step |
| `RolloutSafety.TurnEffect` | modules/service/controllers/rollout/controller.go:64-127 | exactly what one pass does to one revision: its step if the app is not blocked and its interval has elapsed when the loop reaches it, and nothing otherwise; a first pass is measured from its even split |
| `RolloutSafety.OvershootIsCorrected` | modules/service/controllers/rollout/controller.go:99-118 | a step passes its goal by at most a quarter of the increment, never for goals below 100, and the next due step lands on the goal |
| `RolloutSafety.RunCorrectsOvershoot` | modules/service/controllers/rollout/controller.go:64-118 | over any run, in any order of revisions, from an even split or not: an overshoot is at most a quarter of the increment, stays as it is however many passes come before the revision's next turn, and that turn lands on the goal |
| `RolloutSafety.RunStaysNonNegative` | modules/service/controllers/rollout/controller.go:64-127 | over every run with specs edited and revisions reordered, added without a weight or removed in between, weights stay non-negative if each goal is below 100 or at least a quarter of its increment |
| `RolloutSafety.NonNegativeExactly` | modules/service/controllers/rollout/controller.go:109-118 | for goals of 100 and more that bound is exact: beyond it some non-negative weight steps below zero |
| `RolloutSafety.WritesAreSpaced` | modules/service/controllers/rollout/controller.go:101-121 | over every run with a monotone clock, two incremental writes under one key are at least the later interval apart |
| `RolloutSafety.TimeBound` | modules/service/controllers/rollout/controller.go:109-118 | an increment made of a difference and a number of steps closes any gap up to that difference within 4 * steps + 1 due ticks |
| `RolloutSafety.TurnsSuffice` | modules/service/controllers/rollout/controller.go:99-118 | counting only the revision's own turns, under any schedule: each covers half an increment and the last one less than an increment |
| `RolloutSafety.TurnBound` | modules/service/controllers/rollout/controller.go:99-118 | the time bound for any schedule: 4 * steps + 1 turns of the revision itself |
| `RolloutSchedules.TotalPermutes` | vendor/k8s.io/client-go/tools/cache/thread_safe_store.go:179-198 | the total distance does not depend on the order in which the index returns the revisions |
| `RolloutSchedules.TickDescends` | modules/service/controllers/rollout/controller.go:81-127 | for any set of keys whose revisions cannot get stuck: a pass never raises their distance, and lowers it whenever one of them off its goal gets its turn |
| `RolloutSchedules.QuietTick` | modules/service/controllers/rollout/controller.go:81-127 | a pass in which no revision of the set off its goal gets its turn records no write time under its keys |
| `RolloutSchedules.DueIsEffective` | modules/service/controllers/rollout/controller.go:91-121 | an unblocked pass at which the intervals of the set have elapsed has an effect on it unless its goals are reached |
| `RolloutSchedules.TurnWithin` | modules/service/controllers/rollout/controller.go:91-121 | within an interval some revision of the set gets its turn, unless all are at their goals |
| `RolloutSchedules.IntervalDescends` | modules/service/controllers/rollout/controller.go:91-132 | between two ticks an interval apart the distance of the set falls or is gone, whatever ticks come in between and whatever the other revisions do |
| `RolloutSchedules.AnyScheduleConverges` | modules/service/controllers/rollout/controller.go:41-133 | any set of revisions that cannot get stuck converges once as many intervals as its distance have gone by: for every order at each tick, every schedule on a monotone clock, revisions becoming unready, paused and resumed on the way, and the rest of the app changing at will |
| `RolloutSchedules.WholeAppConverges` | modules/service/controllers/rollout/controller.go:41-133 | the same for a whole app: every revision ends at its goal |
| `RolloutSchedules.BlockedTickOccurs` | modules/service/controllers/rollout/controller.go:81-90 | the runs of these theorems include blocked ticks: a revision paused at one tick and resumed at the next |
| `Weights.GenerateWeightAndRolloutConfig` | pkg/services/weight.go:17-57 | the loop and branches compute `Generate`: the plan, or the refusal, for a target and duration |
| `Weights.ReadsBackExactly` | pkg/services/weight.go:59-76 | for every arithmetic, the weight reads back as the target if twice what truncation takes from the new total is below that total, and only if it is not above it |
| `Weights.ReadsBackInExactArithmetic` | pkg/services/weight.go:59-76 | in exact arithmetic the tie reads back too, which makes it one condition |
| `Weights.TargetReadsBack` | pkg/services/weight.go:59-76 | next to a total of at least 198, the weight for a target below 100% reads back as exactly that percentage, as its condition then always holds |
| `Weights.SmallTotalsDoNot` | pkg/services/weight.go:59-76 | 1% next to a total of 98 reads back as 0%, and 2% next to 146 as 1% |
| `Weights.AloneIsAllTraffic` | pkg/services/weight.go:59-76 | without other weight any positive target below 100% reads back as 100% |
| `Weights.WeightCommandReachesTarget` | pkg/services/weight.go:36-40 | once the rollout a weight command starts has converged, repeating the command is refused as already at target exactly when the weight reads back |
| `Weights.PlanMeetsDuration` | pkg/services/weight.go:80-100 | a plan made for a duration brings the revision to its goal within 4 * steps + 1 due ticks |
| `Traffic.GetTargetsForApp` | modules/gloo/pkg/vsfactory/target.go:135-187 | the loops compute the targets of the non-template services with their percentages |
| `Traffic.SetAllToOne` | modules/gloo/pkg/vsfactory/target.go:166-169 | without any weight every target gets weight 1 and nothing else changes |
| `Traffic.SplitHundred` | modules/gloo/pkg/vsfactory/target.go:170-184 | truncated percentages, and the rest of 100 for the last target |
| `Traffic.FairSplit` | modules/gloo/pkg/vsfactory/target.go:170-184 | percentages sum to exactly 100; the last lies in 0..100, covers its fair share and exceeds it by at most one percent per other target |
| `Traffic.FairOthers` | modules/gloo/pkg/vsfactory/target.go:181-182 | every other percentage lies in 0..100 and at most one below its fair share |
| `Traffic.LastTakesTheLosses` | modules/gloo/pkg/vsfactory/target.go:176-183 | the last target gets its fair share plus exactly what truncation takes from the others, at most one percent from each |
| `Traffic.LastOffExactly` | modules/gloo/pkg/vsfactory/target.go:176-183 | for every arithmetic, a last target of weight zero next to some weight gets no traffic exactly when every other share is exact |
| `Traffic.OffExactly` | modules/gloo/pkg/vsfactory/target.go:166-184 | a target of weight zero in any position gets no traffic exactly when some target has weight and it is not the last one or every other share is exact |
| `Traffic.AllOffServed` | modules/gloo/pkg/vsfactory/target.go:166-169 | two revisions that are both off are both served |
| `Traffic.WhenSharesAreExact` | modules/gloo/pkg/vsfactory/target.go:176-183 | an exact share is a whole percent; nothing and everything are always exact, and in exact arithmetic every whole percent is |
| `Traffic.LastOffNeedsWholePercents` | modules/gloo/pkg/vsfactory/target.go:176-183 | whole percents are necessary for a revision that is off to get no traffic in every arithmetic, and sufficient in exact arithmetic |
| `Traffic.OffRevisionServed` | modules/gloo/pkg/vsfactory/target.go:176-183 | weights 1, 1, 1, 0 give the revision that is off 1% |
| `Traffic.OffRevisionServedByRounding` | modules/gloo/pkg/vsfactory/target.go:176-183 | whole percents are not sufficient in float64: weights 29, 71, 0 give the revision that is off 1% |
| `Traffic.OneOnTakesAll` | modules/gloo/pkg/vsfactory/target.go:170-184 | a single positive weight gets 100 and every other target 0, in any position |
| `Promote.PromoteService` | cli/cmd/weight/weight.go:74-109 | in place: the promoted version gets the weight and config, other revisions with weight get goal zero, the rest stay; a failing update leaves its service alone and the others go ahead; an error exactly when the services cannot be listed, there are none, or an update failed |
| `Promote.SomethingMoves` | modules/service/controllers/rollout/controller.go:91-127 | until a promotion has settled some revision moves, whatever the increment |
| `Promote.PromotionSettles` | modules/service/controllers/rollout/controller.go:91-132 | as many due ticks as the total distance leave the promoted revision on and all others off |
| `Promote.PlanSuitsPromote` | pkg/services/weight.go:42-56 | a plan for 100% always has the promote weight and an increment below four times it |
| `Promote.PromoteEndToEnd` | cli/cmd/weight/weight.go:73-109 | promote followed by due ticks gives the promoted revision exactly 100 and every other 0 |
| `Promote.OthersArrive` | modules/service/controllers/rollout/controller.go:91-127 | under any schedule the other revisions reach zero after as many intervals as their distance, whatever the increment |
| `Promote.TurnsOn` | modules/service/controllers/rollout/controller.go:108-110 | once the others are off, one more interval takes a promoted revision that is off to its goal, even with an increment that would stall |
| `Promote.PromoteAnySchedule` | cli/cmd/weight/weight.go:73-109 | the same for every order and schedule, every increment from 1 on, and revisions becoming unready, paused and resumed: once as many intervals as the total distance have gone by, after every tick the promoted revision has 100 and every other 0 |
| `QuestionsModel.ConditionParses` | cli/pkg/up/questions/questions.go:248-268 | a conjunction of clean comparisons parses back to them |
| `QuestionsModel.TopologicalIsAcyclic` | cli/pkg/up/questions/questions.go:38-47 | an order in which every referenced question comes first rules out cycles |
| `QuestionsModel.Extend` | cli/pkg/up/questions/questions.go:53-71 | answering a question after all it refers to keeps every earlier answer, and which were prompted, right |
| `QuestionsModel.OneConsistentAnswer` | cli/pkg/up/questions/questions.go:270-288 | on acyclic conditions only one set of answers fits its own conditions |
| `QuestionsModel.OrderDoesNotMatter` | cli/pkg/up/questions/questions.go:334-342 | forms with the same questions in any order have the same consistent answers |
| `QuestionSession.Questions.constructor` | cli/pkg/up/questions/questions.go:290-332 | a new session holds every top-level question with its parsed condition and old answer, nothing asked |
| `QuestionSession.Build` | cli/pkg/up/questions/questions.go:291-306 | one fresh object per question, and the map from variable to the last question of that name |
| `QuestionSession.Questions.Ask` | cli/pkg/up/questions/questions.go:38-72 | terminates on every graph; a cycle report comes with a closed walk of live conditions; success leaves the question answered and the flags as before |
| `QuestionSession.Questions.Resolve` | cli/pkg/up/questions/questions.go:53-71 | old answer, prompt, or default, written once and recorded |
| `QuestionSession.Questions.Eval` | cli/pkg/up/questions/questions.go:270-288 | every referenced question is answered first, then the result is whether all checks hold |
| `QuestionSession.Questions.AskAll` | cli/pkg/up/questions/questions.go:334-342 | success means no cycle, every question written once and prompted at most once, exactly the live questions whose checks hold on the final answers prompted, and the answers the only consistent ones |
| `QuestionSession.Questions.AskWithoutFailures` | cli/pkg/up/questions/questions.go:334-342 | when prompts succeed, an error is returned exactly when the conditions that must be evaluated form a cycle |
| `Features.StartableIffChains` | pkg/controllers/config/controller.go:101-124 | startable means that every chain of requirements ends at a registered, enabled feature |
| `Features.AcyclicIffRanked` | pkg/controllers/config/controller.go:105-115 | requirements can be ranked, which is when the recursion over them ends, exactly when no feature requires itself through a chain |
| `Features.ClosedChains` | pkg/controllers/config/controller.go:105-115 | if every requirement is registered, so is everything a feature reaches |
| `Features.FeatureHandler.Start` | pkg/controllers/config/controller.go:101-124 | starts the feature after its requirements, each once, or reports one it reaches through requirements: registered but not enabled, not registered, or enabled and failing to start |
| `Features.FeatureHandler.GetFeatureConfig` | pkg/controllers/config/controller.go:54-99 | explicit over wildcard over default, in any order of visiting registry and configuration |
| `Features.EnabledSet` | pkg/controllers/config/controller.go:54-99 | the enabled set holds exactly the names that explicit setting, wildcard or default enable |
| `Features.FeatureHandler.UpdateConfigMap` | pkg/controllers/config/controller.go:180-205 | the rewritten section, in any order of visiting the registry |
| `Features.ReadBack` | pkg/controllers/config/controller.go:54-99 | for every configuration and registry, reading back the controller's write gives the same enabled set |
| `Features.WriteIsIdempotent` | pkg/controllers/config/controller.go:180-205 | writing again changes nothing; options and unregistered entries survive |
| `Features.FeatureHandler.constructor` | pkg/controllers/config/controller.go:31-38 | a new controller has no feature state |
| `Features.FeatureHandler.OnChange` | pkg/controllers/config/controller.go:126-178 | first change: applied whenever all requirements are registered and no start fails, and then started are exactly the startable features, each once and after its requirements, for every order; an error names an unregistered requirement or a failed start; later: exit exactly when the enabled set differs |
| `Features.ChangeThenOwnWrite` | pkg/controllers/config/controller.go:136-141 | the controller's own write never makes it exit |
| `Gloo.MatchToMatch` | modules/gloo/pkg/vsfactory/router.go:311-358 | the matcher of a rule: path precedence, header patterns, methods |
| `Gloo.MatchPreserved` | modules/gloo/pkg/vsfactory/router.go:311-358 | the matcher accepts exactly the requests the rule accepts |
| `Gloo.EmptyPathHasNoSpecifier` | modules/gloo/pkg/vsfactory/router.go:314-333 | a route lacks a path specifier exactly when the path condition is present and empty |
| `Gloo.SchemeIsDropped` | modules/gloo/pkg/vsfactory/router.go:311-358 | with a scheme condition, matcher and rule agree on a request exactly when the rest rejects it or the scheme fits |
| `Gloo.SchemeIsDroppedExample` | modules/gloo/pkg/vsfactory/router.go:311-358 | a rule for https, and a plain request that its matcher accepts |
| `Gloo.RouteToRoute` | modules/gloo/pkg/vsfactory/router.go:118-156 | destinations overwrite a mirror, which overwrites a redirect; every other part has its own option |
| `Gloo.RouteOptions` | modules/gloo/pkg/vsfactory/router.go:118-156 | headers, faults, rewrites, retries and timeout each set their own option, whichever others are present; `GlooMeaning.FatePreserved` says what they amount to |
| `Gloo.MultiDestinations` | modules/gloo/pkg/vsfactory/router.go:158-177 | one weighted destination per target, port 80 by default, weights as 32-bit unsigned; `GlooMeaning.TargetsPreserved` says when they are the rule's |
| `Gloo.HeadersToHeaders` | modules/gloo/pkg/vsfactory/router.go:88-116 | added headers with the append option, then set headers without one; `GlooMeaning.HeadersPreserved` says what they amount to |
| `Gloo.Applies` | pkg/apis/rio.cattle.io/v1/router.go:25-26 | the first rule matching a request, and none only when no rule matches |
| `GlooRouter.VsForRouter` | modules/gloo/pkg/vsfactory/router.go:63-86 | one route per rule, in order |
| `GlooRouter.PatchRedirects` | modules/gloo/pkg/vsfactory/router.go:51-58 | exactly the routes of rules that redirect to HTTPS become redirects |
| `GlooRouter.ConfigureHTTPSRedirect` | modules/gloo/pkg/vsfactory/router.go:48-61 | only the service without TLS is patched |
| `GlooRouter.TlsCopies` | modules/gloo/pkg/vsfactory/gloo.go:48-68 | one copy per host, with the unpatched routes |
| `GlooRouter.InjectACME` | modules/gloo/pkg/vsfactory/acme.go:16-50 | one challenge route in front per public domain, all other routes kept in order |
| `GlooRouter.ForRouter` | modules/gloo/pkg/vsfactory/router.go:22-45 | the plain service has challenge routes then patched routes, every copy the unpatched routes |
| `GlooRouter.FirstMatchPreserved` | modules/gloo/pkg/vsfactory/router.go:81-83 | a route list that carries the rules' matchers serves each request at the position of the rule that applies |
| `GlooRouter.PlainServiceRoutes` | modules/gloo/pkg/vsfactory/router.go:22-45 | on the plain service a challenge goes to the solver if a domain is public, any other request to the patched route of the first matching rule |
| `GlooRouter.TlsServiceRoutes` | modules/gloo/pkg/vsfactory/router.go:37-42 | on a TLS copy every request goes to the unpatched route of the first matching rule |
| `GlooRouter.PlainRedirects` | modules/gloo/pkg/vsfactory/router.go:47-61 | the plain service redirects to HTTPS exactly at the rules that ask for it |
| `GlooRouter.RedirectsOnlyOnPlain` | modules/gloo/pkg/vsfactory/router.go:47-61 | TLS copies never redirect to HTTPS exactly when each such rule has a destination or a mirror |
| `GlooRouter.RedirectLoopExample` | modules/gloo/pkg/vsfactory/router.go:47-61 | a router whose TLS copy redirects HTTPS to HTTPS |
| `GlooMeaning.HeadersPreserved` | pkg/apis/rio.cattle.io/v1/router.go:75-87 | removing and then appending header by header leaves, under every name, the comma-separated list of the values kept, added and set |
| `GlooMeaning.SetIsAdd` | modules/gloo/pkg/vsfactory/router.go:88-116 | setting headers has the effect of adding them after the added ones |
| `GlooMeaning.SetReplacesNothing` | modules/gloo/pkg/vsfactory/router.go:104-112 | a header that is set once has just its new value exactly when the request does not bring the header or it is removed, and it is not also added |
| `GlooMeaning.PerTryTimeoutKept` | modules/gloo/pkg/vsfactory/router.go:253-262 | the per-try timeout is the retry block's exactly when the rule's timeout is the same, or unset and the block's is zero |
| `GlooMeaning.PerTryTimeoutExample` | modules/gloo/pkg/vsfactory/router.go:253-262 | three retries of 2 seconds each within 10 seconds become retries of 10 seconds |
| `GlooMeaning.PolicyPreserved` | modules/gloo/pkg/vsfactory/router.go:244-309 | timeout, retries and faults are the rule's exactly when the retry timeout agrees and attempts and status fit 32 bits |
| `GlooMeaning.TargetsPreserved` | modules/gloo/pkg/vsfactory/router.go:158-187 | several destinations share traffic as the rule says exactly when their weights fit 32 bits |
| `GlooMeaning.RequestPreserved` | modules/gloo/pkg/vsfactory/router.go:230-242 | headers, host and path of the forwarded request are the rule's exactly when no path rewrite is in force, the rule matches whole paths, or the prefix it matches is all of the path |
| `GlooMeaning.RewriteExample` | modules/gloo/pkg/vsfactory/router.go:230-235 | a rule for every path that rewrites to /path sends /foo to /pathfoo |
| `GlooMeaning.MirrorExample` | modules/gloo/pkg/vsfactory/router.go:118-156 | a rule with a destination and a mirror mirrors nothing |
| `GlooMeaning.WrapExample` | modules/gloo/pkg/vsfactory/router.go:158-177 | a weight of 2^32 next to 1 leaves its destination without traffic |
| `GlooMeaning.FatePreserved` | modules/gloo/pkg/vsfactory/router.go:118-156 | the generated route forwards, rewrites, redirects or drops a request as the rule says exactly when the rule has no mirror and, if it forwards, its numbers fit, its retry timeout agrees and its path rewrite is carried over |
| `GlooMeaning.TlsServiceFate` | modules/gloo/pkg/vsfactory/router.go:22-45 | on a TLS copy a request is treated as the router says exactly when the first matching rule is one of those |
| `GlooMeaning.PlainServiceFate` | modules/gloo/pkg/vsfactory/router.go:22-61 | on the plain service challenges for public domains reach the solver unchanged; any other request is treated as the router says exactly when the first matching rule redirects to HTTPS or is one of those |
| `Permissions.SortSorts` | pkg/riofile/stringers/permission.go:49 | sorting gives a sorted permutation and keeps exactly the sorted lists |
| `Permissions.MaybeString` | pkg/riofile/stringers/permission.go:44-82 | the buffer ends up holding `Print`, and the caller's verbs end up sorted unless the permission is a role |
| `Permissions.PrintIsStable` | pkg/riofile/stringers/permission.go:44-82 | the verbs sorted in place print the same text again |
| `Permissions.ParsePermission` | pkg/riofile/stringers/permission.go:84-165 | the branches and the URL filter compute `Parse`, with its three errors |
| `Permissions.ParseIndexesEmptyList` | pkg/riofile/stringers/permission.go:84-165 | the parser indexes an empty list exactly when the text is no role, not blank, and all its words are URLs |
| `Permissions.URLOnly` | pkg/riofile/stringers/permission.go:131-165 | that happens for every single URL, with or without a leading space |
| `Permissions.URLOnlyExample` | pkg/riofile/stringers/permission.go:131-165 | that happens for the text url=x |
| `Permissions.PrintedURLOnly` | pkg/riofile/stringers/permission.go:44-82 | a rule of just a URL with no verbs or the read verbs prints as such a text |
| `Permissions.PermissionRoundTrip` | pkg/riofile/stringers/permission.go:44-165 | a clean rule, with or without a URL, comes back unchanged exactly when its verbs are sorted, not empty, not the single word read or write, and the read verbs come without a resource name |
| `Permissions.RoleRoundTrip` | pkg/riofile/stringers/permission.go:45-47 | a role comes back trimmed |
| `Ports.MaybeString` | pkg/riofile/stringers/exposed_ports.go:44-99 | the buffer ends up holding `Print` |
| `Ports.ParsePort` | pkg/riofile/stringers/exposed_ports.go:112-154 | the result of `Parse` for some order of visiting the options |
| `Ports.NameSetting` | pkg/riofile/stringers/exposed_ports.go:115-128 | the name comes from the one naming option, wherever it is visited |
| `Ports.OtherSettings` | pkg/riofile/stringers/exposed_ports.go:115-128 | exposure and host port do not depend on the order as long as expose and internal do not meet |
| `Ports.KnownProtocols` | pkg/riofile/stringers/exposed_ports.go:24-42 | every known protocol survives lower-casing and normalizing |
| `Ports.PortRoundTrip` | pkg/riofile/stringers/exposed_ports.go:44-170 | print, parse and normalize gives the normalized port less a redundant Expose flag, in every order of visiting the options, exactly when the name is neither internal nor name |
| `ResourceIDs.StringDefaultNamespace` | cli/pkg/types/types.go:66-92 | the builder ends up holding `PrintID` |
| `ResourceIDs.PrintedIDParses` | cli/pkg/clicontext/byid.go:18-45 | an ID printed for one default namespace and read under another setting gives back the app, the version (v0 for an empty one) and the printed namespace or else the setting |
| `ResourceIDs.LookupFinds` | cli/pkg/clicontext/types.go:67-81 | among distinct services the lookup returns a service exactly when it matches and no earlier one does |
| `ResourceIDs.PrintedIDResolves` | cli/pkg/types/types.go:66-133 | an ID printed for one default namespace and read under another setting looks up its own service exactly when the service has a version and its namespace is printed, is the setting, or no setting is in force and no service of that name comes first |
| `ResourceIDs.SameSettingResolves` | cli/pkg/types/types.go:66-133 | under one and the same setting, which may be no namespace at all, that is exactly when the service has a version |

## Left out

- Traffic.GetTargetsForApp: does not model hosts and ports of targets or targets for services scaled
  to zero; it states which services become targets, in which order, and with which percentages.
- GlooRouter.TlsCopies: does not model the names and SNI hosts of the copies; it states their secrets,
  domains and routes.
- Features.FeatureHandler.Start: does not model cyclic requirements, on which the program recurses
  without end; it takes a ranking, which exists exactly when there is no cycle (`AcyclicIffRanked`).
- Features.FeatureHandler.OnChange: does not model stopping disabled features, the RioInfo status and
  failing writes of the config map, and takes the same ranking.
- Permissions.PermissionRoundTrip: excludes equals signs, commas and spaces inside verbs, API group,
  resource and resource name, where words and lists cannot be told apart.
- Kubernetes clients, caches, enqueueing and locks: a controller call is one atomic step at a single
  clock reading.
- Bit patterns of float64, and operands so large that float64 cannot tell neighbouring quotients
  apart; 64-bit overflow of durations.
- The split of traffic when weights are negative or cancel out, where the program converts an infinity
  to an integer.
- Subquestions: the program decodes them into the wrong variable, so they carry no name.
- The prompt loop and its validation: prompting is an oracle from variable to answer or failure.
- JSON encoding of the config map, and a config map object that is nil.
- Finding TLS certificates and parsing endpoint URLs into domains.
- Routes are values in the model: the deep copy that separates TLS copies from the plain service is
  not an aliasing statement here.
- The proxy itself: requests, header lists, path rewrites and redirects follow the comments of its
  API; that faults switch off timeouts and retries is left to it. Where those comments disagree on a
  prefix rewrite, the model follows the one of the proxy's own route action, which swaps the matched
  prefix.
- Regular expressions: an uninterpreted predicate, with one assumption for header prefixes without
  special characters.
- Spaces beyond Latin-1 and case mapping beyond ASCII in the printers and parsers.
- The Istio translation, volumes, the admission webhook, certificates, DNS, builds and the command
  line around these parts.
