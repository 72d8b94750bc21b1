# The policy engine of the Engine Gateway, modelled and proved in Dafny

The Engine Gateway puts a chain of policy components between its callers and the engines:
authorization, rate limiting, quota, endpoint selection, a circuit breaker and request metrics.
This project models those components, the gRPC handler that chains them, the retry loop and the
version resolver, and proves what each promises over every run.

Every component whose methods update fields is a class, with those fields and with the loops and
in-place updates of the original: the sliding window compacts a slice inside its backing array, the
authorizer sorts an array by exchanges, the limiters and the metrics keep heap objects in maps. Each
method is proved against a step function on values (`Apply`, `Decide`, `Next`, ...), through a `View` of
the object. The theorems are about runs of those step functions, for every run and every key:

- `TokenBucket.dfy`, `FixedWindow.dfy`, `SlidingWindow.dfy`, `Quota.dfy`: the three limiters against the
  unabridged history of what they granted (`History.dfy`), and quotas of 64-bit integers;
- `CircuitBreaker.dfy`, `Retry.dfy`: the breaker with its concurrent callers, and the retry loop;
- `Patterns.dfy`, `Authorizer.dfy`: the wildcard matcher, and the RBAC decision;
- `Versions.dfy`, `Routing.dfy`: the order of versions, the endpoint registry, and the two balancers;
- `Metrics.dfy`: the request counters and their snapshots;
- `GrpcServer.dfy`: the handler, with calls of many callers interleaved at every critical section;
- `Options.dfy`, `Numbers.dfy`, `Text.dfy`, `Arithmetic.dfy`: what several of them share.

## Conventions

- Each critical section of a mutex is one atomic step. Clock readings are parameters, integers in
  nanoseconds, and do not go back within a run. The first token-bucket call on a key reads the clock twice.
- Token counts, backoff factors and random numbers are `real`, without rounding; conversions to integers
  truncate as in Go. Quota amounts and the numbers in versions are 64-bit integers, and wrap or overflow.
- In a run of concurrent calls, a step that is not enabled (a report of a call that is not in flight, a
  clock that goes back) does nothing. So a theorem about all runs is about all real ones.
- Preconditions are what a result needs, and the code does not check them: a rate of at least 0 for
  exactness, a capacity or limit of at least 0, a positive window, timeout or number of endpoints,
  amounts of at least 0 for the bounds on fixed windows and quotas.

## Where the code and its documentation part

The model follows the code.

- `MaxRequests` is described as the most concurrent requests in the half-open state
  (retry/retry.go:180). It counts admissions over the whole trial, and leaves out the one that starts
  it, so one more call can be in flight: `MoreThanMaxRequests`, with `ProbesInFlightBound`.
- The half-open state can lock every caller out for good when `SuccessThreshold` exceeds
  `MaxRequests + 1`: `LockedOutForever`. The condition is exact: `ProgressIffEnoughProbes`.
- Patterns are described as having the wildcards `*` and `?` (auth/authorizer.go:153). `?` stands for itself,
  and a pattern with a `*` is open at both ends. `DocumentedGlobIff` says for which patterns that shows.
- Policies are sorted by exchanges, which is not stable: policies that do not apply can turn a tie around.
  `InapplicablePoliciesDoNotMatterIff` and `OrderIndependentIff` say when they, and the order of insertion, matter.
- The order of versions differs from section 11 of Semantic Versioning 2.0.0: a prerelease comes after its
  release (`PrereleaseAboveRelease`) and build metadata counts (`BuildMetadataCounts`). Numbers above the
  range of 64-bit integers make it cyclic (`OverflowCycle`), and only they do (`OrderlyIffRegular`).
- `MaxBackoff` is described as the maximum retry delay (retry/retry.go:18). The first wait is not capped, and
  jitter comes on top: `UnjitteredWithinCapIff` and `JitteredWithinCapIff` say when no wait exceeds it, and
  `PatientPolicyExceedsCap` has one that does. `DelayBound` is the bound that always holds.
- The round-robin counter can be past the end of a healthy list that has shrunk, and the index panics
  (`ShrinkingListPanics`). `InRangeIff` says after which changes of the list that can happen.
- The weighted balancer chooses by a hash of the engine's name and the number of its endpoints, so the choice
  stays the same until one of them changes: shares are proportional over the hash (`SharesAreWeights`), and
  over calls only if there is one endpoint (`CallsFollowWeightsIff`).
- A quota is exceeded when the sum of usage and amount wraps around: `OverLimitIffOverflow`. Without a limit,
  usage is not booked. The text of the least 64-bit integer is `-`: `TextReadsBack`.
- The limiter key joins tenant and engine with a colon, so names with colons can share a bucket: `SharesKeyIff`.
- A denied call on a fixed window changes later decisions exactly if the last window has ended, for then it
  opens one: `DeniedCallMattersIff`.

## Model

| member | source | states |
|---|---|---|
| TokenBucketLimiter.RefillIsPathIndependent | ratelimit/ratelimit.go:61-68 | refilling at one instant and again later leaves the bucket as refilling once at the later one does |
| TokenBucketLimiter.AbsentBucketIsFull | ratelimit/ratelimit.go:52-68 | a new bucket is full at the refill, whichever of the two clock readings dates it |
| TokenBucketLimiter.LevelIsTight | ratelimit/ratelimit.go:48-77 | in every run the level of a bucket is the least headroom that the unabridged history of grants leaves |
| TokenBucketLimiter.DecisionIsExact | ratelimit/ratelimit.go:48-77 | in every run a call for n is granted if and only if n fits the capacity and, with each earlier grant and all after it, the capacity plus the rate times the seconds since: no grant too many, no needless denial |
| TokenBucketLimiter.SecondGainsRate | ratelimit/ratelimit.go:61-68 | a bucket left alone for 1,000,000,000 nanoseconds gains the rate, up to the capacity |
| TokenBucketLimiter.GrantsArePaced | ratelimit/ratelimit.go:48-77 | any stretch of grants in a row totals at most the capacity plus what accrues between its first and last |
| TokenBucketLimiter.IntervalBound | ratelimit/ratelimit.go:48-77 | any closed interval sees at most the capacity plus the rate times its length in seconds granted on a key |
| TokenBucketLimiter.LevelIsNeverNegative | ratelimit/ratelimit.go:61-74 | a bucket never holds less than nothing, and is never dated after the clock |
| TokenBucketLimiter.RemainingAgrees | ratelimit/ratelimit.go:48-97 | at one instant a call for n succeeds if and only if n is at most what Remaining answers, fractions and missing buckets included |
| TokenBucketLimiter.SameGrantsWithout | ratelimit/ratelimit.go:48-97 | deleting a denied call, a query or a call on another key from a run leaves the grants on a key as they were |
| TokenBucketLimiter.IrrelevantCallsDoNotMatter | ratelimit/ratelimit.go:48-97 | and leaves every later decision on the key as it was |
| TokenBucketLimiter.TokenBucket.constructor | ratelimit/ratelimit.go:34-40 | a new limiter is where every run starts |
| TokenBucketLimiter.TokenBucket.AllowN | ratelimit/ratelimit.go:48-77 | the heap objects decide and change as the step on values, and buckets stay unshared |
| TokenBucketLimiter.TokenBucket.Allow | ratelimit/ratelimit.go:43-45 | the same for a single request |
| TokenBucketLimiter.TokenBucket.Remaining | ratelimit/ratelimit.go:80-97 | answers the refilled level, cut to an integer, without changing anything |
| FixedWindowLimiter.RunsAreTracked | ratelimit/ratelimit.go:127-147 | in every run windows on a key start more than a window length apart, each holds at most the limit, and each grant falls into its window |
| FixedWindowLimiter.WindowIsLastOpened | ratelimit/ratelimit.go:132-139 | a window opens at the calls that find none or an ended one, granted or not, and ends a window length later |
| FixedWindowLimiter.DecisionIsExact | ratelimit/ratelimit.go:127-147 | in every run a call for n is granted if and only if n, with all granted since the live window opened, is at most the limit; without a live window, if and only if n is |
| FixedWindowLimiter.BurstBound | ratelimit/ratelimit.go:127-147 | a closed interval sees at most the limit for every window length begun, and once more |
| FixedWindowLimiter.WindowLengthBurst | ratelimit/ratelimit.go:127-147 | an interval as long as a window sees at most twice the limit |
| FixedWindowLimiter.DoubleBurstHappens | ratelimit/ratelimit.go:127-147 | for every limit and window, a run in which twice the limit passes within a nanosecond |
| FixedWindowLimiter.DeniedCallMattersIff | ratelimit/ratelimit.go:132-146 | after any run, a denied call makes a difference to some later decision if and only if the last window on its key has ended or there was none |
| FixedWindowLimiter.RemainingAgrees | ratelimit/ratelimit.go:127-165 | at one instant a call for n succeeds if and only if n is at most what Remaining answers, expired and missing windows included |
| FixedWindowLimiter.FixedWindow.AllowN | ratelimit/ratelimit.go:127-147 | the heap objects decide and change as the step on values, and windows stay unshared |
| FixedWindowLimiter.FixedWindow.Allow | ratelimit/ratelimit.go:122-124 | the same for a single request |
| FixedWindowLimiter.FixedWindow.Remaining | ratelimit/ratelimit.go:150-165 | answers what the current window leaves, and the whole limit when it has ended |
| SlidingWindowLimiter.LogAgreesWithHistory | ratelimit/ratelimit.go:190-238 | after any cutoff not before those applied, the pruned log and the unpruned history hold the same entries |
| SlidingWindowLimiter.LogIsRecentHistory | ratelimit/ratelimit.go:190-238 | after any call the log is what was granted after the cutoff of that call, in order |
| SlidingWindowLimiter.DecisionOnFullHistory | ratelimit/ratelimit.go:190-215 | every decision is the one that counting the unpruned history calls for |
| SlidingWindowLimiter.DecisionIsExact | ratelimit/ratelimit.go:190-215 | in every run a call at t for n is granted if and only if n, with all granted after t - window and up to t, is at most the limit |
| SlidingWindowLimiter.WindowBound | ratelimit/ratelimit.go:190-215 | a half-open interval as long as the window sees at most the limit |
| SlidingWindowLimiter.LogWithinLimit | ratelimit/ratelimit.go:190-238 | no log is ever longer than the limit |
| SlidingWindowLimiter.RemainingAgrees | ratelimit/ratelimit.go:190-238 | at one instant a call for n succeeds if and only if n is at most what Remaining answers |
| SlidingWindowLimiter.IrrelevantCallsDoNotMatter | ratelimit/ratelimit.go:190-238 | deleting a query, which prunes, a denied call or a call on another key changes no later decision on a key |
| SlidingWindowLimiter.Compact | ratelimit/ratelimit.go:198-204 | the in-place loop keeps exactly the entries after the cutoff, in order, in the same backing array |
| SlidingWindowLimiter.SlidingWindow.AllowN | ratelimit/ratelimit.go:190-215 | the slices decide and change as the step on values, and no two keys come to share a backing array |
| SlidingWindowLimiter.SlidingWindow.Allow | ratelimit/ratelimit.go:185-187 | the same for a single request |
| SlidingWindowLimiter.SlidingWindow.Remaining | ratelimit/ratelimit.go:218-238 | answers what the entries after the cutoff leave, and prunes the log to them |
| QuotaTracker.OverLimitIffOverflow | ratelimit/ratelimit.go:271-291 | a call gets past its limit if and only if usage plus amount leaves the range of 64-bit integers |
| QuotaTracker.AcceptedIff | ratelimit/ratelimit.go:271-278 | while the sum fits 64 bits a call is accepted if and only if there is no limit or usage plus amount is at most the limit |
| QuotaTracker.SetLimitSetsOne | ratelimit/ratelimit.go:256-264 | seen from any tenant and resource, setting a limit changes that limit alone |
| QuotaTracker.ConsumeBooksOne | ratelimit/ratelimit.go:267-292 | consuming changes one usage, by the amount, and only when it is accepted against a limit |
| QuotaTracker.ResetForgetsOne | ratelimit/ratelimit.go:295-299 | a reset changes the usages of one tenant, to 0 |
| QuotaTracker.LimitHolds | ratelimit/ratelimit.go:267-299 | between resets a fixed limit bounds usage, and usage has grown by exactly the amounts accepted |
| QuotaTracker.Quota.SetLimit | ratelimit/ratelimit.go:256-264 | sets one limit and leaves all others and all usage |
| QuotaTracker.Quota.Consume | ratelimit/ratelimit.go:267-292 | accepts exactly what the wrapping sum allows, books it only against a limit, and otherwise reports limit, usage and request |
| QuotaTracker.Quota.Reset | ratelimit/ratelimit.go:295-299 | forgets the usage of one tenant and nothing else |
| QuotaTracker.PrependDigits | ratelimit/ratelimit.go:330-334 | the loop writes the decimal digits, and nothing for a number that is not positive |
| QuotaTracker.Itoa | ratelimit/ratelimit.go:322-339 | the digits with the sign in front, after a negation that wraps |
| QuotaTracker.DigitsReadBack | ratelimit/ratelimit.go:331-334 | the digits of a natural number read back as that number |
| QuotaTracker.TextReadsBack | ratelimit/ratelimit.go:322-339 | the text of a 64-bit integer reads back as that integer if and only if it is not the least one |
| CircuitBreaking.RunsAreConsistent | retry/retry.go:208-287 | in every run: closed keeps failures below the threshold and equal to those since the last success, reset or closing; open and half-open have reached it; half-open keeps successes below and requests within their limits; both are 0 elsewhere |
| CircuitBreaking.OpensOnlyByFailure | retry/retry.go:258-276 | a breaker opens only by a reported failure, and is dated by the clock reading of that report; nothing else changes the date |
| CircuitBreaking.FieldsAreCounts | retry/retry.go:208-276 | in every run the date is when it last opened, and in a trial the counts are of the successes and the calls, up to MaxRequests, since the trial began |
| CircuitBreaking.DecisionIsExact | retry/retry.go:208-235 | in every run a call is admitted when closed; when open, if and only if a timeout has passed since the failure that opened it; in a trial, if and only if fewer than MaxRequests have come since the one that started it |
| CircuitBreaking.StatusIsExact | retry/retry.go:208-287 | in every run the next status, by the failures in a row, the successes of the trial, the time since opening, and resets; a success that comes in while it is open does not close it |
| CircuitBreaking.TrialsArePaidFor | retry/retry.go:208-276 | outside the closed state every trial has cost a timeout, and admitted one call and at most MaxRequests more |
| CircuitBreaking.OutageBound | retry/retry.go:208-276 | from the failure that opens the breaker until it is closed again no call is admitted before a timeout has passed, and at most 1 + MaxRequests for every timeout that has, for every order of calls and outcomes |
| CircuitBreaking.OutageBoundIsMet | retry/retry.go:208-276 | for every number of timeouts, a run that reaches that bound |
| CircuitBreaking.RunsAreAccounted | retry/retry.go:208-305 | with callers interleaved and outcomes of earlier trials coming in late, every probe of a half-open trial is still in flight or was a success, and no more are in flight than were admitted |
| CircuitBreaking.HalfOpenProgress | retry/retry.go:208-305 | with SuccessThreshold at most MaxRequests + 1, every half-open state admits a call or waits for a probe of its own trial |
| CircuitBreaking.ProgressIffEnoughProbes | retry/retry.go:208-305 | that condition is exact: without it some run gets stuck |
| CircuitBreaking.DefaultsMakeProgress | retry/retry.go:190-198 | the settings of NewCircuitBreaker meet it |
| CircuitBreaking.LockedOutForever | retry/retry.go:208-305 | without it some run reaches a state after which no call is admitted in any continuation without a reset |
| CircuitBreaking.ProbesInFlightBound | retry/retry.go:216-234 | at most 1 + MaxRequests probes of a trial are in flight together |
| CircuitBreaking.MoreThanMaxRequests | retry/retry.go:180-234 | for every MaxRequests, a run with one more than that in flight together in the half-open state |
| CircuitBreaking.CircuitBreaker.constructor | retry/retry.go:190-198 | a new breaker is closed, with nothing counted, and two successes and one request as settings |
| CircuitBreaking.CircuitBreaker.Allow | retry/retry.go:208-235 | admits and changes state as the step on values |
| CircuitBreaking.CircuitBreaker.Success | retry/retry.go:238-255 | counts or forgets as the step on values, in whichever state the report arrives |
| CircuitBreaking.CircuitBreaker.Failure | retry/retry.go:258-276 | counts or opens as the step on values, in whichever state the report arrives |
| CircuitBreaking.CircuitBreaker.Reset | retry/retry.go:279-287 | closes, and clears every count |
| CircuitBreaking.CircuitBreaker.Execute | retry/retry.go:293-305 | refuses exactly when Allow does, and otherwise reports the outcome after whatever other callers have done to the breaker meanwhile, and returns it |
| Retrying.Contains | retry/retry.go:74-81 | true if and only if the text occurs at some position |
| Text.OccursIff | retry/retry.go:74-81 | a text occurs in another just if that one is the text with something before and after |
| Retrying.IsRetryable | retry/retry.go:47-71 | the predicate decides if there is one, else the list of messages, else every error is retried |
| Retrying.NextDelay | retry/retry.go:104-118 | the nested loop computes the capped geometric backoff and the jitter on top |
| Retrying.GrowsByMultiplier | retry/retry.go:104-112 | with a multiplier of at least 1 the backoff starts at InitialBackoff, and each is the one before times the multiplier, or MaxBackoff if that is less |
| Retrying.ScaleIsFloor | retry/retry.go:107 | the product is cut to a whole number of nanoseconds |
| Retrying.JitterRange | retry/retry.go:114-137 | the jitter adds at most a quarter of the backoff, and can add all of that or nothing; nothing is added without it |
| Retrying.GrowIsCapped | retry/retry.go:106-112 | no number of rounds takes the backoff above the larger of its start and the cap |
| Retrying.DelayBound | retry/retry.go:104-137 | no wait exceeds five quarters of the larger of InitialBackoff and MaxBackoff |
| Retrying.UnjitteredWithinCapIff | retry/retry.go:104-118 | without jitter every wait is within MaxBackoff if and only if InitialBackoff is |
| Retrying.JitteredWithinCapIff | retry/retry.go:104-137 | with jitter the wait of an attempt is within MaxBackoff for every random number if and only if its backoff and a quarter of that are |
| Retrying.PatientPolicyExceedsCap | retry/retry.go:36-44 | the seventh wait under the default settings can be 6.25 seconds, with a MaxBackoff of 5 |
| Retrying.BackoffNeverShrinksIff | retry/retry.go:104-112 | with a multiplier of at least 1 the backoff never shrinks from one attempt to the next if and only if InitialBackoff is within MaxBackoff |
| Retrying.Execute | retry/retry.go:84-129 | at most MaxRetries + 1 calls, each further one after a retryable failure and an undisturbed wait of the set length; the four ways to stop; nil if and only if the last call succeeded |
| Patterns.Index | auth/authorizer.go:166 | the leftmost occurrence, or none (strings.Index) |
| Patterns.PlaceableIffGlob | auth/authorizer.go:161-174 | the segments of a pattern can be placed in a text, in order and without overlap, if and only if the text matches the pattern as a glob with both ends open |
| Patterns.GreedyChoice | auth/authorizer.go:166-170 | placing a segment at its leftmost occurrence never spoils the placement of the others |
| Patterns.MatchPattern | auth/authorizer.go:154-178 | the greedy loop accepts if and only if the text equals the pattern or, with a wildcard, matches it as a glob with both ends open |
| Patterns.AnchoredMatchesAreAccepted | auth/authorizer.go:154-178 | every ordinary, anchored glob match is accepted |
| Patterns.OrdinaryGlobIff | auth/authorizer.go:154-178 | the matcher is a glob with `*` alone for exactly the patterns without a `*` and those with one at both ends |
| Patterns.QuestionMarkFails | auth/authorizer.go:153-178 | for every pattern with a `?`, a text that it should match, as documented, and does not |
| Patterns.DocumentedGlobIff | auth/authorizer.go:153-178 | the matcher is the documented glob, with `?` for any one character, for exactly the patterns without a `?` that have no `*` or one at both ends |
| Patterns.Overreach | auth/authorizer.go:153-178 | for every other pattern, a text that is accepted though no anchored glob would |
| Authorization.SortPermutes | auth/authorizer.go:77-86 | the sort yields a permutation, in descending priority |
| Authorization.SortByPriority | auth/authorizer.go:80-86 | the nested loops over the array perform exactly that exchange sort |
| Authorization.DecisionIsTop | auth/authorizer.go:94-122 | the decision is the effect of an applicable policy that no other outranks, and a denial if none applies |
| Authorization.LiteralAppliesIff | auth/authorizer.go:94-122 | a policy for an action without a wildcard applies if and only if it is for the action, or for the action and the resource, fits the identity, and allows or denies |
| Authorization.RolesMatch | auth/authorizer.go:126-151 | a policy without permissions fits whoever has one of its roles, or any role for `*`; and everyone if it has no roles either |
| Authorization.PermissionsMatch | auth/authorizer.go:126-151 | a policy without roles fits whoever has a permission that one of its own matches; and everyone if it has none |
| Authorization.EitherMatches | auth/authorizer.go:126-151 | a policy with both fits whoever its roles or its permissions alone would fit |
| Authorization.OrderDoesNotMatter | auth/authorizer.go:69-123 | when the applicable policies of the highest priority agree, any list with the same applicable policies decides the same |
| Authorization.InapplicablePolicyDoesNotMatter | auth/authorizer.go:69-123 | in particular after inserting a policy that does not apply, anywhere |
| Authorization.OrderIndependentIff | auth/authorizer.go:69-123 | every order of insertion decides the same if and only if the applicable policies of the highest priority agree |
| Authorization.TieBrokenByOrder | auth/authorizer.go:69-123 | otherwise, an order that decides the opposite |
| Authorization.CopiesTurnLevel | auth/authorizer.go:80-86 | in any list, appending m copies of a policy turns the order of the policies of every lower priority by m |
| Authorization.CopiesMakeDecide | auth/authorizer.go:69-123 | any applicable policy of the highest priority can be made to decide, by enough copies of any higher one that does not apply |
| Authorization.InapplicablePoliciesDoNotMatterIff | auth/authorizer.go:69-123 | no number of copies of a higher policy that does not apply changes the permission if and only if the applicable policies of the highest priority agree |
| Authorization.InapplicablePolicyFlipsTie | auth/authorizer.go:80-86 | the least example: an allowing policy, a denying one of the same priority, and a higher one that does not apply |
| Authorization.IdentityMatch | auth/authorizer.go:126-151 | true if and only if a role or a permission of the identity fits one required, or none is required |
| Authorization.RBACAuthorizer.AddPolicy | auth/authorizer.go:62-66 | appends the policy |
| Authorization.RBACAuthorizer.Authorize | auth/authorizer.go:69-123 | the sort of a copy, the matching and the first match together make the decision above, and a missing identity is refused; the stored policies keep their order |
| Versions.SplitVersion | routing/routing.go:234-251 | the loop splits at dots, dashes and pluses and drops empty parts |
| Versions.CompareVersions | routing/routing.go:254-278 | the loop compares component by component, by number where both have one, and then by length |
| Versions.CompareIsTotalPreorder | routing/routing.go:254-278 | on versions whose numbers fit 64-bit integers the comparison is total and transitive |
| Versions.OrderlyIffRegular | routing/routing.go:254-278 | a version keeps its place after everything ordered before it if and only if its numbers fit |
| Versions.IrregularCycle | routing/routing.go:258-275 | every component whose number does not fit closes a cycle of three components |
| Versions.OverflowCycle | routing/routing.go:254-278 | a concrete cycle of three versions |
| Versions.PrereleaseAboveRelease | routing/routing.go:254-278 | a prerelease is ordered after its release, unlike in section 11 of Semantic Versioning 2.0.0 |
| Versions.BuildMetadataCounts | routing/routing.go:238-278 | build metadata is ordered like a prerelease, where that section ignores it |
| Versions.VersionResolver.RegisterVersion | routing/routing.go:166-168 | appends a version for one engine |
| Versions.VersionResolver.Resolve | routing/routing.go:171-207 | an error exactly if nothing is registered or nothing matches; else a registered match that no other match exceeds; without a constraint the default if registered, else a greatest version |
| Versions.MajorConstraint | routing/routing.go:210-231 | a digit from 1 is met by exactly the versions whose first component it is, and by itself |
| Versions.MinorConstraint | routing/routing.go:210-231 | two components are met by exactly the versions that begin with both, and by themselves |
| Versions.OtherConstraint | routing/routing.go:210-231 | any other constraint is met by itself alone |
| Versions.SortDescending | routing/routing.go:177-182 | a permutation, in descending order when the comparison is an order |
| Routing.Registry.Register | routing/routing.go:48-69 | refuses a missing name or address, and else appends a healthy endpoint of positive weight; so all weights stay positive |
| Routing.Registry.Unregister | routing/routing.go:72-83 | removes the first endpoint at an address and no other |
| Routing.Registry.SetHealthy | routing/routing.go:129-139 | marks the first endpoint at an address and no other |
| Routing.Registry.GetHealthyEndpoints | routing/routing.go:99-111 | the healthy endpoints, in order of registration |
| Routing.HealthyInOrder | routing/routing.go:99-111 | wherever an endpoint stands, it is kept in its place if it is healthy and dropped if not |
| Routing.PicksGoRound | routing/routing.go:339-352 | while an engine keeps k healthy endpoints the m-th pick is the m-th after the first, modulo k, whatever is called for other engines |
| Routing.FairShares | routing/routing.go:339-352 | after any number of calls each endpoint was picked its share, rounded down or up |
| Routing.OnceARound | routing/routing.go:339-352 | any k picks in a row take each of the k endpoints once |
| Routing.InRangeUnlessShrunk | routing/routing.go:348-351 | the index is in range if the list is no shorter than at the last call on the engine that found endpoints |
| Routing.InRangeIff | routing/routing.go:348-351 | when the last call that found endpoints found k, a call on m is in range after every such history if and only if m is at least k |
| Routing.ShrinkingListPanics | routing/routing.go:129-139 | registering two endpoints, one call and marking one endpoint unhealthy makes the next call index past the end |
| Routing.RoundRobinLoadBalancer.Next | routing/routing.go:339-352 | picks by the counter before it moves on, and moves it on by the current length even when the index is out of range |
| Routing.GoingRoundPicksEach | routing/routing.go:339-352 | k picks in a row, from any counter in range, return each of the k endpoints as often as it is listed |
| Routing.RoundRobinLoadBalancer.NextRound | routing/routing.go:339-352 | so do k calls of the method, which leave the counter where it was |
| Routing.SelectIsInterval | routing/routing.go:381-386 | endpoint j is selected exactly by the values of pick from the weights before it up to, and without, those plus its own |
| Routing.SelectFinds | routing/routing.go:377-390 | the loop always selects an endpoint: the fallback at its end is never reached |
| Routing.SharesAreWeights | routing/routing.go:377-390 | of all values of pick, each endpoint is selected by exactly as many as its weight |
| Routing.OnePickedAlways | routing/routing.go:378-386 | while the list stays, m calls pick one endpoint m times and every other never |
| Routing.CallsFollowWeightsIff | routing/routing.go:378-386 | while the list stays, every endpoint gets its share of every number of calls, within one call, if and only if there is one endpoint |
| Routing.WeightedLoadBalancer.Next | routing/routing.go:368-391 | the loop selects the endpoint whose interval of weights holds the hash modulo the total |
| Routing.WeightedLoadBalancer.NextInARow | routing/routing.go:368-391 | m calls in a row return those picks |
| Telemetry.SumAfterRecord | telemetry/telemetry.go:208-234 | recording a request on one engine adds it to the sum over all engines, in whichever order they are summed |
| Telemetry.TotalsAreSums | telemetry/telemetry.go:208-234 | in every run requests are successes plus errors, and each total, latency included, is the sum over the engines |
| Telemetry.CountersAreExact | telemetry/telemetry.go:208-234 | in every run the counters of an engine are the number of its successes, the number of its other requests, and the sum of the latencies recorded for it |
| Telemetry.Metrics.RecordRequest | telemetry/telemetry.go:208-234 | the heap objects change as the step on values, and engines keep separate counters |
| Telemetry.Metrics.RecordTimeout | telemetry/telemetry.go:237-241 | counts a timeout and nothing else |
| Telemetry.Metrics.Snapshot | telemetry/telemetry.go:244-263 | a copy with the same values that shares no object with the original |
| Telemetry.SnapshotStays | telemetry/telemetry.go:208-263 | any number of later requests show in the original and not in the snapshot, and the two share no counters |
| GrpcServing.LimiterLedger | grpcserver/server.go:103-105 | in every interleaving the calls past the limiter on a key in an interval are exactly its grants |
| GrpcServing.LimiterTotal | grpcserver/server.go:103-105 | the calls past the limiter on all keys are exactly its grants |
| GrpcServing.SharesKeyIff | grpcserver/server.go:103-105 | a tenant and engine share their bucket with another pair if and only if one of the names has a colon |
| GrpcServing.ForwardsObeyBucket | grpcserver/server.go:80-163 | forwards on a tenant and engine obey the bound of their bucket over any interval of grants |
| GrpcServing.QuotaLedger | grpcserver/server.go:107-111 | the calls of a tenant past the quota are exactly the requests its quota has accepted |
| GrpcServing.QuotaTotal | grpcserver/server.go:107-111 | the calls of all tenants past the quota are exactly the requests it has accepted and the calls without a tenant |
| GrpcServing.OnCourseLedger | grpcserver/server.go:107-142 | the calls of a tenant that are or may be forwarded grow by no more than its quota accepts |
| GrpcServing.ForwardsObeyQuota | grpcserver/server.go:80-163 | from any state, until a reset, no more calls of a tenant get forwarded than its fixed limit on requests leaves and were charged but still pending |
| GrpcServing.BreakerLedger | grpcserver/server.go:137-142 | the forwards since any state are exactly the admissions of the breaker since then |
| GrpcServing.OnlyFailedForwardsOpen | grpcserver/server.go:137-142 | only the answer to a failed forward opens the breaker, and dates it |
| GrpcServing.ForwardsDuringOutage | grpcserver/server.go:137-142 | from the failed forward that opens the breaker until it is closed again nothing is forwarded before a timeout has passed, and at most 1 + MaxRequests calls for every timeout that has |
| GrpcServing.GatewayMakesProgress | grpcserver/server.go:137-142 | with enough probes, a half-open breaker admits the next call or some call is being forwarded, whatever came before |
| GrpcServing.RecordLedger | grpcserver/server.go:144-163 | the counts of requests, successes and errors of every engine are exactly its recorded calls with that outcome |
| GrpcServing.RecordedExactlyOnce | grpcserver/server.go:137-163 | when no call is on its way, every call that reached the breaker has been recorded exactly once, on its engine |
| GrpcServing.Funnel | grpcserver/server.go:80-163 | in every run, what the breaker admits is what is forwarded, and is at most what the quota accepts or need not accept, which is at most what the limiter grants |
| GrpcServing.Server.ResolveEndpoint | grpcserver/server.go:235-240 | none if the server's registry has none, else exactly what the balancer's counter points at in its own registry, past the end included, and what becomes of the counters |
| GrpcServing.Server.ResolveRound | grpcserver/server.go:235-240 | as many resolutions in a row as the balancer has healthy endpoints return each of them as often as it is listed |
| GrpcServing.Server.Execute | grpcserver/server.go:80-163 | which callers get InvalidArgument, Unauthenticated and PermissionDenied, without any effect: the last are exactly those without an identity or without a permission, when there is an authorizer. Every other caller reaches the limiter; how far it then gets, its code, the endpoint it is sent to, and what becomes of the buckets, quotas, counters, breaker and metrics |
| GrpcServing.Server.ExecuteAll | grpcserver/server.go:80-163 | any calls in a row are a run from the state they find, in which every tenant with a limit is kept to it |

## Left out

- The transports and front doors (HTTP, gRPC, Connect), JSON and protobuf envelopes, headers, signals and the
  engine client: a forward is an arbitrary reply, a transport error or a response with a status.
- JWT and API keys, tenant resolution, `PermissionMap`, `config`, the logger, the tracer and the other formatting
  helpers: lookups or plumbing. Authentication is an arbitrary identity or a failure.
- The HTTP handler of `gateway/gateway.go`: nearly the same pipeline as the gRPC one.
- `Resolver.Resolve`, `ListAll`, `GetEndpoints`, `Count`, `State`, `Metrics` and `Usage` getters, the texts of errors,
  `GetHealth`, `ListEngines` and `GetEngine`: one-branch or lookup facts.
- Rounding of floating-point numbers, and their overflow on conversion to integers in the backoff. The
  xorshift generator, whose numbers are arbitrary reals from 0 to 1, and the name hash, an arbitrary function.
- Wrap-around of Go integers other than quota amounts, such as request counters and limits near the end of the range.
- Data races on `randomState` and on the fields of `VersionResolver`, and callbacks that panic inside the breaker.
- Endpoints are values in the registry: changes a caller makes through a pointer it kept, and `Tags`, do not show.
- Strings are sequences of characters: bytes that are not UTF-8, and leading white space that `Sscanf` skips, do not show.
- `ratelimit.Quota` and the limiter are always configured in the model of the gRPC server; the authorizer may be absent.
  Deadlines, `httpErrorToGRPC` (a status of 400 or more keeps its number), and an engine error that wraps
  `ErrCircuitOpen` (answered as unavailable by the code) are not modelled.
- Versions.SortDescending: `sort.Slice` is represented by an insertion sort with what it promises; which of
  several equal versions comes first is not modelled.
- GrpcServing.Server.Execute: the calls of other callers between the steps of one call show in the theorems
  about runs, not in this method, which takes its steps in a row.
