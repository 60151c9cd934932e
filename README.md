# Secret Santa matching core, in Dafny

This project models the assignment engine of the secret-santa backend and
proves properties of it. It has three parts:

- **Subfactorials and the sampler** (`combinatorics.dfy`, module `Combinatorics`).
  - The package-level `dp` cache of derangement counts is the class
    `SubfactorialTable`. It holds a `seq<nat>` that is seeded with D(0) = 1
    and D(1) = 0 and is only ever appended to.
  - `RandomDerangement` is the Martínez–Panholzer–Prodinger sampler. It works
    on a fresh `array<int>` `A` and an `array<bool>` `mark`, and walks a
    cursor `i` down while the count `u` of open positions is at least 2.
  - Randomness is a nondeterministic choice:
    - `rng.Intn(i)`, with its rejection loop, picks some open `j < i`;
    - `rng.Float64()` picks some `k / 2^63` with `0 <= k < 2^63`. Every value
      that math/rand's `Float64` can return has this form.
- **Matching service** (`service.dfy`, module `GroupService`).
  - `Service.MatchParticipants`:
    1. fetches a group;
    2. rejects groups of fewer than two participants with a 400 error;
    3. pairs participant `k` with participant `perm[k]` along a derangement;
    4. stores the matches through the repository, then on the group.
  - The repository interface is `Repository`. It is a map of group documents
    plus, per id, the error that a lookup or a matches update reports.
- **Case- and accent-insensitive search pattern** (`casefuncs.dfy`, module `CaseFuncs`).
  - `accentsMap` is filled by the nested loops of `FillClassMap`.
  - `ToCaseInsensitiveRegex` lower-cases and regex-escapes each term, widens
    each accentable letter to its bracket class, and joins the terms with `|`.
    The result carries the option `i`.

`wrappers.dfy` holds the `Option` and `Result` types that stand for Go's
`(value, *CustomError)` returns.

## Model

| member | source | states |
|---|---|---|
| Combinatorics.KnownValues | functions/combinatorics_test.go:9-13 | D(0)=1 and D(1)=0 as seeded; D(2)=1, D(3)=2, D(4)=9; and the tested D(6)=265, D(8)=14833, D(10)=1334961 |
| Combinatorics.Derangements | functions/combinatorics.go:18-20 | D(k) by the cache's recurrence, from D(0)=1 and D(1)=0; it is 0 exactly when k=1, so every other size has a derangement |
| Combinatorics.SingleTermRecurrence | functions/combinatorics.go:18-20 | the two-term recurrence of the cache agrees with the classical D(k) = k·D(k−1) + (−1)^k for k ≥ 1 |
| Combinatorics.ThresholdBounds | functions/combinatorics.go:47 | for u ≥ 2, the threshold (u−1)·D(u−2)/D(u) has a positive denominator and lies in [0, 1]; it equals 1 exactly when u=2 and 0 exactly when u=3 |
| Combinatorics.SubfactorialTable.constructor | functions/combinatorics.go:7-12 | the cache starts as exactly [1, 0] = [D(0), D(1)] |
| Combinatorics.SubfactorialTable.Subfactorial | functions/combinatorics.go:14-22 | returns D(n); the cache stays valid (entry k is D(k)) and keeps its old entries as a prefix; a query below the current length changes nothing; otherwise the cache grows to exactly n+1 entries |
| Combinatorics.CacheQueriesAgree | functions/combinatorics.go:15-21 | asking for D(20) then D(10) gives the same value as asking for D(10) on a fresh cache, namely the tested 1334961 |
| Combinatorics.PermutationIsBijection | functions/combinatorics.go:25-30 | a sequence with the multiset of 0..n−1 has length n, has every entry in 0..n−1, and has no repeated entry |
| Combinatorics.OpenCountZero | functions/combinatorics.go:35 | no open position is left below hi exactly when every position below hi is marked; the sampler's final count u = 0 therefore means every position was closed |
| Combinatorics.OpenCountClose | functions/combinatorics.go:48-50 | marking an open j below hi lowers the count of open positions by exactly one |
| Combinatorics.OpenCountAllOpen | functions/combinatorics.go:27-33 | with nothing marked, the open count equals the number of positions, so u = n starts equal to the count |
| Combinatorics.SkipKeepsShape | functions/combinatorics.go:54 | passing over a closed cursor keeps the sampler's invariant and leaves the open count of 0..i−1 equal to that of 0..i |
| Combinatorics.SwapKeepsShape | functions/combinatorics.go:44-52 | after swapping A[i] with an open A[j], j < i, and closing j or not, no position above i−1 and no closed position holds its own index |
| Combinatorics.Swap | functions/combinatorics.go:44 | exchanges exactly A[i] and A[j], so the multiset of A is kept |
| Combinatorics.GridDrawIsProbability | functions/combinatorics.go:46 | each draw k/2^63 lies in [0, 1) |
| Combinatorics.PickOpenBelow | functions/combinatorics.go:37-43 | when the open count below i is positive, the rejection loop settles on some j < i that is open |
| Combinatorics.DecideClose | functions/combinatorics.go:46-48 | compares the draw with the threshold read from the cache; with u=3 it never closes and with u=2 it always closes; the cache stays valid and append-only |
| Combinatorics.InitWorkingState | functions/combinatorics.go:25-30 | A is the identity 0..n−1 and every mark is false |
| Combinatorics.ProcessOpen | functions/combinatorics.go:36-52 | at an open cursor with u ≥ 2, returns the j and the decision taken: j < i was open; A is the old A with A[i] and A[j] exchanged and nothing else changed; only mark[j] may be set, and it is set exactly when the pair is closed; u drops by 2 when closed and by 1 otherwise; u=3 always becomes 2 and u=2 always becomes 0; u stays the open count of 0..i−1; A keeps its multiset and the sampler's invariant |
| Combinatorics.RandomDerangement | functions/combinatorics.go:24-58 | returns a permutation of 0..n−1 of length n; for n ≠ 1 it has no fixed point; for n = 1 it is [0]; the cache stays valid and append-only |
| GroupService.Repository.GetGroupByID | repositories/group/mongodb.go:44-61 | the lookup's error for a failing id; "Group not found" (404) for an unknown id; otherwise a fresh group equal to the stored document |
| GroupService.Repository.UpdateMatches | repositories/group/mongodb.go:113-127 | the update's error for a failing id, with nothing stored; otherwise the stored group's matches are replaced and nothing else changes |
| GroupService.PairParticipants | services/group/service.go:70-75 | match k is (participants[k].name, participants[perm[k]].name), one per participant, in participant order |
| GroupService.NoSelfMatch | services/group/service.go:73 | along a derangement, with distinct names, no match has first = second |
| GroupService.PickPreservesMultiset | services/group/service.go:73 | reading names along two index sequences with the same multiset gives name sequences with the same multiset |
| GroupService.EveryoneGivesAndReceivesOnce | services/group/service.go:70-75 | along a permutation, the givers are exactly the participant names in order, and the receivers are those names up to order |
| GroupService.ReceiversAreUnique | services/group/service.go:73 | along a permutation, with distinct names, each participant is the receiver of exactly one match |
| GroupService.DerangedPairingFacts | services/group/service_test.go:58-62 | for the matches a successful call stores, with distinct names: one match per participant; nobody draws themselves; everyone gives in participant order and receives exactly once |
| GroupService.Service.MatchParticipants | services/group/service.go:51-87 | the lookup's error is returned and nothing changes; fewer than two participants gives a 400 "Not enough participants" before sampling or storing; the update's error is returned and nothing is stored; on success the returned group is the stored group with new matches that pair everyone along a derangement, and the repository holds exactly that group |
| CaseFuncs.ClassMapKeys | functions/caseFuncs.go:21-25 | a character is a key of the filled map exactly when it lies between the brackets of some class |
| CaseFuncs.ClassMapAt | functions/caseFuncs.go:21-25 | a character maps to the whole string of the last class that holds it |
| CaseFuncs.ClassMapValues | functions/caseFuncs.go:21-25 | every value of the map is one of the classes, and it holds its key between its brackets |
| CaseFuncs.ClassMapIsSafe | functions/caseFuncs.go:21-25 | built from bracket classes without metacharacters, the map has no metacharacter as a key and only such classes as values |
| CaseFuncs.AccentClassesWellFormed | functions/caseFuncs.go:12-19 | each of the six classes is a bracket class whose interior holds no regex metacharacter |
| CaseFuncs.AccentsMap | functions/caseFuncs.go:11-27 | accentsMap: the class map of the six classes "[aàáâã]", "[cç]", "[eéê]", "[ií]", "[oóôõ]", "[uú]"; no metacharacter (in particular no backslash) is a key, and every value is a bracket class |
| CaseFuncs.AccentInteriors | functions/caseFuncs.go:12-19 | the characters between the brackets of the six classes |
| CaseFuncs.AccentExampleA | functions/caseFuncs.go:13 | 'á' maps to "[aàáâã]" |
| CaseFuncs.AccentExampleC | functions/caseFuncs.go:14 | 'ç' maps to "[cç]" |
| CaseFuncs.AccentExampleB | functions/caseFuncs.go:11-27 | 'b' is not a key, so it is not widened |
| CaseFuncs.AddClass | functions/caseFuncs.go:22-24 | adds every interior character of one class, mapped to that class, and keeps every other entry |
| CaseFuncs.FillClassMap | functions/caseFuncs.go:20-26 | the nested loops build exactly the map in which each interior character goes to the last class that holds it |
| CaseFuncs.ExpandConcat | functions/caseFuncs.go:36-43 | widening distributes over concatenation |
| CaseFuncs.LowerChar | functions/caseFuncs.go:35 | strings.ToLower on one character: the result is no upper-case letter of ASCII or Latin-1; it is the character itself or moved down by 32; lower-casing neither creates nor removes a metacharacter |
| CaseFuncs.ToLower | functions/caseFuncs.go:35 | strings.ToLower: same length, each character lowered by LowerChar |
| CaseFuncs.QuoteMeta | functions/caseFuncs.go:35 | regexp.QuoteMeta: a backslash before each metacharacter; reading each backslash as "the next character is literal" gives the term back |
| CaseFuncs.UnquoteEscape | functions/caseFuncs.go:35 | one escaped character reads back as itself, whatever follows |
| CaseFuncs.ExpandUnmapped | functions/caseFuncs.go:41-42 | characters that are not keys are copied to the pattern unchanged |
| CaseFuncs.QuoteMetaPlain | functions/caseFuncs.go:35 | a string without metacharacters is its own quotation |
| CaseFuncs.PlainTermIsLiteral | functions/caseFuncs.go:35-43 | a term whose lower-cased characters are neither metacharacters nor keys contributes exactly its lower-cased self |
| CaseFuncs.EscapeThenWiden | functions/caseFuncs.go:35-43 | an escaped metacharacter passes the widening untouched; any other character is widened |
| CaseFuncs.ClassAtom | functions/caseFuncs.go:39 | an accent class inserted into the pattern reads back as one bracket atom, whatever follows it |
| CaseFuncs.EscapedAtom | functions/caseFuncs.go:35-43 | each escaped and widened character is one atom of the pattern |
| CaseFuncs.QuotedFront | functions/caseFuncs.go:35-43 | an escaped and widened string contains no top-level "\|": it sits inside the first alternative of whatever follows |
| CaseFuncs.TermFront | functions/caseFuncs.go:35-43 | a term's pattern sits inside the first alternative of whatever follows it |
| CaseFuncs.BarFront | functions/caseFuncs.go:32-34 | the separator "\|" starts a new alternative |
| CaseFuncs.SplitPattern | functions/caseFuncs.go:31-43 | for at least one term, the joined pattern splits at its top-level "\|" into exactly the terms' patterns, in order, so the join adds exactly len(arr)−1 separators |
| CaseFuncs.SplitSingle | functions/caseFuncs.go:31-43 | a single term's pattern is the only alternative |
| CaseFuncs.SplitFirst | functions/caseFuncs.go:31-43 | with two or more terms, the first term's pattern is the first alternative on its own, and the rest of the pattern gives the rest |
| CaseFuncs.TermPatternsCons | functions/caseFuncs.go:31-43 | the terms' patterns are the first term's pattern followed by those of the rest |
| CaseFuncs.RegexAlternatives | functions/caseFuncs.go:29-46 | the same split holds for the pattern built with accentsMap |
| CaseFuncs.PatternSnoc | functions/caseFuncs.go:31-34 | appending a term adds a "\|" and that term's pattern |
| CaseFuncs.AppendWidened | functions/caseFuncs.go:36-43 | the inner loop appends exactly the widened form of the escaped term |
| CaseFuncs.BuildPattern | functions/caseFuncs.go:30-44 | the outer loop builds exactly the joined pattern of all terms |
| CaseFuncs.ToCaseInsensitiveRegex | functions/caseFuncs.go:29-46 | the pattern is the terms' patterns over accentsMap joined by "\|"; no terms give the empty pattern; the options are "i" |

## Left out

- Floating point. The cache and the threshold use exact naturals and reals
  instead of `float64`. This agrees with the source wherever `float64` is
  exact, which covers every tested value.
- Combinatorics.SubfactorialTable.Subfactorial: the source's float64 entries
  are exact only up to 2^53, which is passed near D(19). From D(171) on they
  overflow to +Inf. The threshold (u−1)·D(u−2)/D(u) then evaluates to 0 or
  NaN, so the source never closes a pair while u ≥ 171. The model computes
  exact values and lets the decision go either way there. Its results do not
  depend on that decision, since they hold for every draw.
- Combinatorics.DecideClose: the draw may be any k/2^63 with 0 ≤ k < 2^63.
  This includes every value math/rand's `Float64` returns, and possibly
  values it never returns. How likely each value is, is not modelled.
- Statistical uniformity of the sampler is not stated. Randomness is a
  nondeterministic choice, so the model proves what holds for every draw.
- The resampling loop of `rng.Intn` (functions/combinatorics.go:38-43) is
  not modelled as a loop. Only its outcome is: some open `j < i`. Its
  termination is not proved.
- Seeding the random source with `time.Now` (services/group/service.go:68)
  is not modelled.
- Concurrent growth of the global `dp` slice is not modelled. The cache is a
  single-threaded object passed to the sampler.
- Negative arguments are not modelled. `Subfactorial` and
  `RandomDerangement` take `nat`; in the source, a negative n indexes `dp`
  out of range or makes `make` panic.
- Combinatorics.RandomDerangement: for n = 1 the sampler skips its loop and
  returns [0], which is a fixed point. Only the service guard
  (services/group/service.go:57) keeps n = 1 away from it. The model states
  the n = 1 output instead of excluding it.
- GroupService.Repository: MongoDB I/O, ObjectID parsing and the
  internal-server-error paths are folded into the injected per-id failure
  maps. The other repository operations (create, update, delete, add
  participant, list groups, `GetMyMatch`) and the service's one-line
  delegations to them are not part of this model.
- GroupService.Service.MatchParticipants: the `remainingParticipants` set
  (services/group/service.go:61-65) is built but never read, so it is not
  modelled.
- GroupService.Service.MatchParticipants: on an update error, the source
  does not assign `group.Matches`. The model returns the error and the
  group object is dropped, so this is not observable and not stated.
- GroupService.NoSelfMatch needs distinct participant names. The source
  compares names, so two participants with the same name could be matched
  to each other's namesake.
- Creation times, HTTP handlers and routes, dependency wiring, validation,
  and the error constructors other than the 400 and 404 ones used here are
  not part of this model.
- CaseFuncs.LowerChar: `strings.ToLower` is modelled only on ASCII and
  Latin-1 ('A'..'Z' and 'À'..'Þ' except '×'). Other characters are kept as
  they are.
- CaseFuncs.QuoteMeta is modelled by what it does: a backslash before each
  of `\.+*?()|[]{}^$`. Go's table-driven implementation is not modelled.
- CaseFuncs.ToCaseInsensitiveRegex: the `bson.M{"$regex": ...}` wrapper is
  modelled as a `Regex(pattern, options)` record.
- CaseFuncs.ToCaseInsensitiveRegex fills the accent map on every call. The
  source fills `accentsMap` once, when its package is initialised. Both
  produce the same map, `FillClassMap(AccentClasses) == AccentsMap()`.
- CaseFuncs.Alternatives reads patterns only as this builder writes them:
  escapes, bracket classes without nested syntax, single characters and
  "|". It is not a full parser for Go's regexp syntax.
