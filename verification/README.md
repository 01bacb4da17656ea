# A verified model of the VAST client's state machines and transformations

The repository is an HTTP client for a storage management API, written in Go. Around the transport it holds several
pieces of real logic: an authorization protocol shared by many goroutines, a reference-counted lock per key, a
pagination cursor with search-then-act operations above it, a polling loop with backoff, a type-directed conversion of
decoded JSON, an encoder of structs, a resolver and comparer of OpenAPI schemas, and the scanners and path builders of
its code generator. This project models those pieces in Dafny and proves what they promise. `dafny verify
dfyconfig.toml` checks everything.

| module | what it models |
|---|---|
| `Auth` | `authorize` of the JWT authenticator as atomic blocks under its mutex, for any number of calls, any scheduler and any server |
| `Retry` | the request loop that calls `authorize`, alone and together with `Auth` |
| `KeyLocker` | the per-key mutex: LoadOrStore, increment, lock, unlock, decrement and Delete as separate steps, and fused |
| `Cursor` | the pagination cursor, for every server and for servers that hold a consistent chain of pages |
| `Crud` | Get, Exists, Ensure and Delete over a stored collection listed through the cursor |
| `Polling` | the waiting loop with capped backoff and the task wait above it |
| `Convert` | the conversion of JSON values to the shape of a struct type, with float64 rounding of integers |
| `Codec` | encoding a struct to a map and filling a struct from it |
| `Schemas` | following references, flattening `allOf`, comparing schemas |
| `Markers` | the quote- and brace-aware key=value scanner |
| `Discover` | discovery of extra methods from a path table |
| `PathBuild` | the two ways of putting an id into a path template |
| `Values`, `Texts`, `Basics` | decoded JSON, the string operations and the option type they share |

Where the source updates things in place the model is a class or a method with a loop, proved against a specification
function; the laws are then proved about that function. Durations are integers, numbers with a fraction are reals, a
`char` stands for a Unicode code point.

## What came out

* The panic in `refreshToken` is reachable exactly when the server may answer a token request without a refresh token.
* The doc comment of `authorize` speaks of one HTTP request per attempt (core/auth.go line 256). The code sends two when
  a refresh is answered with 401, so the comment holds exactly for servers that never grant a refresh token. The model
  follows the code.
* A call that got its authorization may still build its header from an empty access token, because another call that
  comes after it clears the token first. With a server that grants no empty access token, the token is empty exactly
  while a leader has stored nothing, and while nobody leads and the last attempt failed or there was none.
* A request of a caller that has the authenticator to itself makes at most four authorize calls, exactly for servers that
  never grant an empty but refreshable token; with such a token it can be six, the bound of the loop itself. With other
  callers in between a pass may find the authenticator claimed again, and the bound of four is not claimed.
* The per-key mutex excludes, over all schedules, exactly when no key is used by three calls. With three, the second can
  hold a lock object that the first has already removed from the map while the third makes a new one.
* A first page that fails leaves the iterator looking exhausted: Next and All then answer with an empty page and no
  error until Reset.
* All ends exactly when the link it starts with lies in no trap of links that lead to one another; an envelope without
  `next`, which keeps the old link, is the smallest trap, and two pages that point at each other are another.
* A search whose only match is an empty record counts as not found: Ensure then creates, and the next Ensure finds too
  many.
* Filling a struct succeeds exactly on values a caller can recognize beforehand (`Accepts`). Behind a pointer to a scalar
  or a struct, and under a key that differs from the field's name in case, nothing is converted, so a number for a text
  is refused there. There, too, an integer is written with the shortest digits of its float64: 2^60 and -2^63 do not
  survive behind a pointer, while as fields of their own they do. All integers up to 2^53 come back everywhere.
* Converting twice equals converting once exactly when every integer given as text is one that float64 has, provided
  numbers are in range; it fails from 2^53 + 1.
* A composed `oneOf` or `anyOf` alternative is taken as it stands, and what lies under its `allOf` is lost. Unless that
  happens somewhere, every part of the unfolding is merged; a schema that picks an alternative is replaced by it, its own
  properties included.
* The recursion over `allOf` ends on a schema, with a result or a panic, exactly when it is in no collection that the
  recursion never gets out of. An entry counts only if all entries before it resolve and compose: a reference that cannot
  be resolved in front of a cycle guards it with a panic.
* Under a resource path that contains a slash no path counts as standard, so its collection paths are discovered as
  extra methods.
* The scanner takes a quote after any backslash for an escaped one, so a quoted value that ends in an escaped backslash
  swallows what follows it, and only such a value does.

## Model

| member | source | states |
|---|---|---|
| Auth.JWTAuthenticator.Enter | core/auth.go:259-285 | the guarded head of `authorize`: sleep while somebody authorizes, return if woken up to a usable token, otherwise take the lead and empty the access token |
| Auth.JWTAuthenticator.ReadRefreshToken | core/auth.go:115-121 | gives the refresh token, or the panic exactly when there is none |
| Auth.JWTAuthenticator.Store | core/auth.go:160-162 | replaces the token and nothing else |
| Auth.JWTAuthenticator.Finish | core/auth.go:315-322 | clears the flag; success alone sets `initialized` |
| Auth.SingleFlightStep | core/auth.go:264-323 | every step keeps: at most one call between setting and clearing the flag, the flag up exactly when there is one, and nobody asleep while it is down, so no wake-up is lost |
| Auth.ReachableInv | core/auth.go:259-325 | in every reachable state: single flight, waiters left only with a non-empty access token, a refresh sends the token that the call found, and an attempt has sent two requests exactly when it began with a refresh that was answered 401, and one otherwise |
| Auth.TwoRequestRun | core/auth.go:300-310 | a reachable state in which a successful attempt has sent two requests, for every token that can be refreshed |
| Auth.OneRequestIffNoRefreshTokens | core/auth.go:255-258 | the documented single request per attempt holds in all reachable states if and only if the server never grants a refresh token |
| Auth.FailedAttemptKeepsRefresh | core/auth.go:278-322 | a failed attempt leaves `initialized` and the refresh token as they were when it began and the access token empty |
| Auth.PanicIffEmptyRefresh | core/auth.go:115-121 | the panic is reachable if and only if the server may grant a token without a refresh part |
| Auth.InitializedCanRefresh | core/auth.go:299-319 | with a server that always sends a refresh token, `initialized` implies a non-empty refresh token in every reachable state |
| Auth.NeverStuck | core/auth.go:264-323 | in every reachable state with an unfinished call some call can run |
| Auth.MeasureStep | core/auth.go:259-325 | every block a call runs makes one measure smaller |
| Auth.SchedulesAreFinite | core/auth.go:259-325 | once no calls arrive, the length of every schedule is bounded, whatever the scheduler and the server do |
| Auth.MaximalSchedulesFinish | core/auth.go:259-325 | a schedule that can go no further has let every call return |
| Auth.AtMostOneAttempt | core/auth.go:264-323 | a call takes the lead at most once in any schedule, and never after it has led or returned |
| Auth.WaitersUseTheLeadersToken | core/auth.go:264-273 | after a leader that succeeds with a usable token, and without new calls, waiters leave with that token and nobody makes another attempt |
| Auth.WaitersReturn | core/auth.go:264-324 | when such a schedule is over, every call that waited has returned with the leader's token |
| Auth.UsableUntilClaimed | core/auth.go:278-334 | over any schedule a usable token stays as it is until some call takes the lead, and the step with which the first one does empties its access part |
| Auth.EmptyTokenIff | core/auth.go:278-334 | with a server that grants no empty access token, after any schedule the access token is empty if and only if a leading call has stored nothing yet, or nobody leads and the last attempt failed or there was none |
| Auth.HeaderMayBeEmptyAfterSuccess | core/auth.go:327-334 | a reachable state in which a call has returned without error and the access token its header would copy is empty |
| Retry.DoRequestWithRetries | core/session.go:406-429 | at most three passes, going on only after authentication trouble that re-authorization repaired; the answer is that of the last pass; the authorize calls are those of the passes made |
| Retry.TroubleIff | core/session.go:415-422 | a pass is repeated after 401 and 403 without permission_denied, and after nothing else |
| Retry.AloneRuns | core/auth.go:259-325 | the outcome assumed for an authorize call without interference is that of a schedule of the step system |
| Retry.SolitaryAtMostFour | core/session.go:406-429 | a caller that has the authenticator to itself, with a server that grants no empty but refreshable token, makes at most four authorize calls per request |
| Retry.TroubledRun | core/session.go:288-295 | a run of one caller with four calls for every refreshable token, and with six if its access part is empty |
| Retry.FourIffNoEmptyRefreshable | core/session.go:406-429 | at most four calls in every run of one caller, if and only if the server never grants an empty but refreshable token |
| Retry.ClaimedBetweenPasses | core/auth.go:356-360 | what other callers add: a reachable state in which a call has just succeeded and isInitialized is false again |
| KeyLocker.ObjectsStep | core/key_locker.go:33-44 | each separate step keeps: a lock object's counter is the number of goroutines between its increment and decrement, and its mutex belongs to the one whose Lock has returned |
| KeyLocker.OwedStep | core/key_locker.go:33-44 | each separate step keeps: for every entry of the map somebody is still bound to delete it |
| KeyLocker.SeparateSteps | core/key_locker.go:33-45 | in every reachable state each lock object has at most one holder and an exact counter, and when all closures have finished the map is empty |
| KeyLocker.PairsAgreeAfter | core/key_locker.go:33-44 | while no key is used by three calls, two holders never share a key after any schedule |
| KeyLocker.ThreeBreakExclusion | core/key_locker.go:33-44 | any three calls of one key have a schedule with two holders |
| KeyLocker.ExclusiveIffNoThreeShareAKey | core/key_locker.go:25-45 | exclusion per key over all schedules holds if and only if no key is used by three calls |
| KeyLocker.FusedStepsExclude | core/key_locker.go:33-44 | with load+increment and decrement+delete each in one step, a key has at most one holder and a mapped lock a positive counter, for any number of calls |
| KeyLocker.CombinedKeyInjective | core/key_locker.go:26-31 | non-empty tuples of colon-free parts share a key only if they are equal |
| KeyLocker.CombinedKeyCollides | core/key_locker.go:26-31 | in general they share a key exactly when their colon-separated pieces are the same |
| KeyLocker.CombinedKeyExample | core/key_locker.go:26-31 | the key of "a" and "b" is "a:b" |
| Cursor.ResourceIterator.constructor | core/iterator.go:84-92 | the fresh cursor |
| Cursor.ResourceIterator.ReadLink | core/iterator.go:183-201 | an absent link field keeps the old link, a non-empty string replaces it, anything else clears it |
| Cursor.ResourceIterator.ConvertResults | core/iterator.go:155-172 | the records of a result list, in order, or an error exactly when some element is not an object |
| Cursor.ResourceIterator.ProcessPaginationEnvelope | core/iterator.go:139-212 | what a record does to the cursor; an error leaves it alone |
| Cursor.ResourceIterator.FetchPage | core/iterator.go:96-136 | the same for every kind of response |
| Cursor.ResourceIterator.Next | core/iterator.go:215-236 | the whole new state and the answer |
| Cursor.ResourceIterator.Previous | core/iterator.go:239-256 | the whole new state and the answer |
| Cursor.ResourceIterator.Reset | core/iterator.go:325-335 | is the first step of a fresh iterator, whatever the state was |
| Cursor.ResourceIterator.All | core/iterator.go:338-361 | the records at hand followed by those of all further pages, and where the cursor stands after that; on an error, the error |
| Cursor.DrainIndependentOfBound | core/iterator.go:338-361 | the bound that says All ends is only a witness: the result does not depend on it |
| Cursor.FailedStepKeepsCursor | core/iterator.go:215-256 | after the first request a step that fails changes nothing but the error |
| Cursor.PlainRecord | core/iterator.go:206-211 | a record that is no envelope is the only page: no links, a count of 1, and All returns it alone |
| Cursor.BareList | core/iterator.go:96-136 | a bare list is the only page too, with its length as count |
| Cursor.Refused | core/iterator.go:145-173 | an envelope whose results are no list of objects, and any other answer, is an error that changes nothing else |
| Cursor.EnvelopeSets | core/iterator.go:145-203 | records, links, count and page number after an envelope, field by field |
| Cursor.DrainsIffLinkGone | core/iterator.go:352-358 | All ends within n requests exactly when there is no n-th link on the way |
| Cursor.EndsIffNoTrap | core/iterator.go:338-361 | for every cursor, fresh or not, and every server: All ends if and only if there is no link to follow, or that link lies in no trap, a collection of links that are answered without error and lead to links of the collection |
| Cursor.EndsIffNoLinkRepeats | core/iterator.go:338-361 | with finitely many links, All ends if and only if no link comes back within as many steps |
| Cursor.MissingNextNeverEnds | core/iterator.go:183-191 | an envelope without `next` makes a trap of one link |
| Cursor.NextThenPrevious | core/iterator.go:215-256 | on a consistent chain with a next page, Next and then Previous restore the whole cursor |
| Cursor.CursorFollowsWalk | core/iterator.go:215-256 | over any sequence of Next, Previous and Reset with a server that may be down at any step, records, links, count and page number are those of a walker between the ends of the chain |
| Cursor.LostLooksExhausted | core/iterator.go:216-223 | after a first request that fails, Next and All answer with an empty page and no error |
| Cursor.AllFromTheStart | core/iterator.go:338-361 | on a finite chain All of a fresh iterator ends and returns every page |
| Cursor.AllFromPage | core/iterator.go:338-361 | from page i it returns the pages from i to the end |
| Crud.VastResource.List | core/vast_resource.go:96-105 | the records of all pages |
| Crud.VastResource.Get | core/vast_resource.go:174-201 | the one non-empty record, not found, too many, or failure |
| Crud.VastResource.Exists | core/vast_resource.go:219-227 | fails exactly when the listing fails, and otherwise says whether Get found one or several |
| Crud.VastResource.Create | core/vast_resource.go:108-114 | appends the record, or changes nothing if the request fails |
| Crud.VastResource.Ensure | core/vast_resource.go:162-170 | creates exactly when nothing was found |
| Crud.VastResource.DeleteById | core/vast_resource.go:149-156 | takes out the record with that id, or changes nothing if the request fails |
| Crud.VastResource.Delete | core/vast_resource.go:128-146 | deletes by id exactly when one record with an id was found; not found is success |
| Crud.ListingComplete | core/vast_resource.go:96-105 | however the server cuts the matching records into pages, the listing ends with all of them in order |
| Crud.ExistsIffMatch | core/vast_resource.go:219-227 | over any store Exists is true exactly when some record matches, unless the only match is an empty record |
| Crud.EnsureTwice | core/vast_resource.go:162-170 | over any store, ensuring a record that satisfies its own search leaves a match, and ensuring again creates nothing; it gives the same answer if and only if there was not just one match that was empty, and else finds too many |
| Crud.WithoutSplits | core/vast_resource.go:149-156 | deleting the id of record i takes out position i and nothing else if and only if no other record has that id |
| Crud.WithoutMembers | core/vast_resource.go:149-156 | deleting an id takes out the records with that id and no others |
| Crud.DeleteByMatches | core/vast_resource.go:128-146 | over any store: nothing to delete means no match or one empty match, a refusal means several, no id means one match that is neither empty nor has an id, and a deletion one match with an id |
| Crud.DeleteTwice | core/vast_resource.go:128-146 | over any store, after a deletion nothing matches, so a second one finds nothing to delete |
| Polling.WaitAPIConditionConfig.Normalize | core/async_result.go:211-224 | zero fields, and only those, get their defaults |
| Polling.WaitAPIConditionConfig.NextInterval | core/async_result.go:242-253 | returns the old interval and raises it under the cap |
| Polling.WaitAPIConditionConfig.WaitAPICondition | core/async_result.go:278-335 | for every configuration, whenever the wait ends: the outcome, the number of polls and the time are those of a trace, in which every poll before the last left the condition open and began in time, and the last one, or the clock, decided |
| Polling.PositiveEnds | core/async_result.go:278-335 | with positive intervals the wait ends in every environment |
| Polling.EndsAlwaysIff | core/async_result.go:278-335 | for every configuration, the wait ends in every environment if and only if the sleeps alone reach the timeout at some point |
| Polling.EndsAlwaysIffSigns | core/async_result.go:211-335 | for a normalized configuration whose backoff is not negative: it ends in every environment if and only if the timeout is not positive, or no longer than the first interval, or interval and cap are positive |
| Polling.SleepsGrow | core/async_result.go:242-253 | over any number of calls intervals never shrink, stay under the cap and above the smaller of first interval and cap |
| Polling.SleepsBehavedIff | core/async_result.go:242-253 | all intervals are positive, capped and non-decreasing if and only if the first is positive and within the cap |
| Polling.GrowsByFactor | core/async_result.go:242-253 | the next interval is the old one times the factor without its fraction, or the cap if that is smaller |
| Polling.DefaultProgression | core/async_result.go:203-237 | the documented defaults and the intervals 500, 625, 781.25 and 976.5625 milliseconds |
| Polling.StartAtLeast | core/async_result.go:278-335 | poll n begins no earlier than n smallest intervals |
| Polling.PollsAndOvershoot | core/async_result.go:278-335 | polls are at most the timeout over the smallest interval, rounded up; the wait outlives the deadline by less than its last poll and interval |
| Polling.TraceUnique | core/async_result.go:278-335 | configuration and environment determine outcome, number of polls and time |
| Polling.AsyncResult.Wait | core/async_result.go:78-124 | on the task records: success exactly when some poll in time finds the state "completed" after nothing but "running", in any casing; a panic, with nothing set, exactly when it finds another state in a record without a name or a numeric id; otherwise the error is set |
| Polling.VerdictOn | core/async_result.go:90-113 | "completed" in any casing ends the wait, "running" in any casing goes on, and any other state is an error |
| Convert.FindFieldByJSONTag | core/flexible_unmarshal.go:155-176 | the first tagged field whose name before the comma is the key |
| Convert.ConvertMapToStruct | core/flexible_unmarshal.go:43-58 | each entry is converted by its field and the others are kept, in any order of the map |
| Convert.ConvertSlice | core/flexible_unmarshal.go:100-122 | element by element |
| Convert.EntryConverted | core/flexible_unmarshal.go:46-55 | an entry is converted to the type of the first field of its name |
| Convert.NumbersToBool | core/utils.go:50-61 | a number of any kind becomes true exactly if it is not zero |
| Convert.TextToBool | core/utils.go:39-49 | a text becomes a bool exactly if it is one of five words for true or six for false, in any casing and with white space around it, and stays as it is otherwise |
| Convert.ZeroAndOne | core/utils.go:35-65 | zero and one become the same bool as text, float64 and integer |
| Convert.TextOf | core/flexible_unmarshal.go:135-152 | a text stays as it is, bools and integers become their words and numerals |
| Convert.TextOfWhole | core/flexible_unmarshal.go:139-144 | a float64 that is an int64 becomes its numeral |
| Convert.TextOfFraction | core/flexible_unmarshal.go:139-144 | any other is printed by the library |
| Convert.FractionCutOff | core/flexible_unmarshal.go:288-312 | a number with a fraction is cut off towards zero |
| Convert.Ranges | core/flexible_unmarshal.go:192-233 | the ranges of the ten integer kinds |
| Convert.UnreadableIsZero | core/flexible_unmarshal.go:82-88 | a text with something other than digits behind its first character, or with nothing but a sign, becomes 0 |
| Convert.OutOfRangeIsZero | core/flexible_unmarshal.go:82-88 | so does the numeral of an integer outside the kind |
| Convert.PlusSign | core/flexible_unmarshal.go:192-233 | a plus sign is read by signed kinds only |
| Convert.TextToFloat | core/flexible_unmarshal.go:234-241 | a text for a float is an infinity or NaN exactly for their seven names in any casing, and 0 if it cannot be read |
| Convert.ConvertKeepsShape | core/flexible_unmarshal.go:43-132 | at every depth, as the type directs: nulls are kept; unless text is asked for, a list stays a list of the same length, converted element by element or unchanged, and an object an object with the same keys, converted field by field or unchanged; text and numbers become numbers of an integer kind |
| Convert.IdempotentIffExact | core/flexible_unmarshal.go:43-132 | for every value and type with numbers in range of the kinds they meet, at every depth, converting twice is converting once if and only if every integer given as text is one that float64 has |
| Convert.TwiceIsOnce | core/flexible_unmarshal.go:43-132 | in particular for numbers in range and texts of integers up to 2^53, at every depth |
| Convert.ThroughText | core/flexible_unmarshal.go:135-152 | turning a bool or an exact integer into text and then into its kind gives what converting it directly gives |
| Convert.ToFloat64Idempotent | core/flexible_unmarshal.go:257-285 | rounding to float64 twice is rounding once, for every integer |
| Convert.ExactUpTo | core/flexible_unmarshal.go:257-285 | integers up to 2^53 are exact |
| Convert.NearestFloat | core/flexible_unmarshal.go:257-285 | rounding an integer to float64 gives a number that none of float64 is nearer than |
| Convert.TiesToEven | core/flexible_unmarshal.go:257-285 | of two equally near it takes the even one: 2^53 + 1 goes down, 2^53 + 3 goes up |
| Convert.DecimalParses | core/flexible_unmarshal.go:192-244 | the numeral of an integer is read as that integer if it fits the kind, and not at all otherwise |
| Convert.NotIdempotentAbove | core/flexible_unmarshal.go:192-244 | the string of 2^53 + 1 gives that integer, and converting again gives 2^53 |
| Codec.ParseJSONTag | core/utils.go:266-284 | the name before the first comma, and whether any later option is `omitempty` |
| Codec.OmitEmptyIff | core/utils.go:271-281 | omitempty is set exactly if some option after the name is this word, white space around it aside |
| Codec.OmitEmptySet | core/utils.go:258-266 | it is set in "name,omitempty" |
| Codec.OmitEmptyNotSet | core/utils.go:258-266 | it is not set in "name" and "name,string" |
| Codec.StructToMap | core/utils.go:143-257 | the entries of all fields that are not skipped, whatever the tags: a repeated name is overwritten |
| Codec.EncodedField | core/utils.go:143-257 | with distinct names, a name is in the map exactly when its field is not skipped, and then with that field's encoding |
| Codec.EntryIff | core/utils.go:198-254 | with distinct names, a field has no entry exactly if its tag has omitempty and it holds the zero value of its type, an empty slice or a pointer to the zero struct; below a slice encoding/json keeps structs and such pointers |
| Codec.Fill | core/serde.go:388-398 | marshals the record, reads it back with its numbers as float64, converts it by the struct type and decodes it into a zero struct; an integer kind reads a float64 that was not converted by its shortest digits |
| Codec.RoundTrip | core/utils.go:143-257 | for every value of every type, however deeply nested, encoding, reparsing, converting and decoding give its normal form if and only if each of its integers arrives as it is: as its float64 neighbour where it is converted, and as the shortest digits of that where it is not |
| Codec.SmallComesBack | core/utils.go:143-257 | so everything with integers up to 2^53 comes back |
| Codec.BehindAPointer | core/flexible_unmarshal.go:112-122 | 2^60 comes back as a field of its own and not from behind a pointer |
| Codec.FillInvertsStructToMap | core/serde.go:48-55 | filling a zero struct from the map of a struct gives the struct in normal form, if and only if its integers arrive as they are |
| Codec.DecodesIffAccepted | core/flexible_unmarshal.go:13-41 | for every value and type, converting and then decoding succeeds if and only if the value is accepted: null anywhere, any value for text, text (an infinity or NaN excepted) and numbers for numbers, float32 within its range, readable words for bools, lists for slices, objects for structs, and nothing converted behind a pointer to other than a slice or under another spelling of a name, where an integer kind takes a number by its shortest digits |
| Codec.LeastBehindAPointer | core/flexible_unmarshal.go:112-131 | the least int64 is accepted for a field of its own and refused behind a pointer |
| Codec.FilledIffAccepted | core/serde.go:388-398 | filling a struct succeeds if and only if the record holds no infinity or NaN and is accepted |
| Codec.FiniteIff | core/serde.go:48-52 | a record can be marshalled exactly if no infinity and no NaN stands anywhere in it |
| Codec.Float32Range | core/flexible_unmarshal.go:39-41 | a float32 field takes 3.4e38 and refuses 1e39 |
| Codec.OtherSpellingRefused | core/flexible_unmarshal.go:155-176 | a number for a text field is refused exactly under a spelling of the name that differs in case |
| Codec.SameIffInNormalForm | core/utils.go:288-311 | it gives the same struct if and only if no field left out holds an empty non-nil slice or a pointer, and no pointer points to a nil slice |
| Codec.ZeroUnique | core/utils.go:288-311 | a type has one zero value, so a field left out for being zero is restored |
| Schemas.ResolveAllRefs | openapi_schema/api.go:466-476 | ends on every finite table with the schema where following stops |
| Schemas.ResolveStops | openapi_schema/api.go:466-476 | that is at the first reference that is empty, unknown or repeated, on cyclic tables too |
| Schemas.ResolveFindsEnd | openapi_schema/api.go:466-476 | if the way ends anywhere, the result is the schema at that end |
| Schemas.ResolveChain | openapi_schema/api.go:126-139 | a chain of references, each ending in the name of a component that refers to the next, resolves to the schema of the last one |
| Schemas.ResolveUnknown | openapi_schema/api.go:466-476 | a reference to a component that is not in the table does not resolve |
| Schemas.ResolveUser | openapi_schema/api.go:126-139 | for example, #/components/schemas/User is the component User |
| Schemas.PickAlternative | openapi_schema/api.go:449-463 | the first alternative of `oneOf`, then `anyOf`, that has a type; the schema itself if it has one or none does |
| Schemas.ResolveComposedSchema | openapi_schema/api.go:407-463 | computes the composition for every schema on which the recursion ends |
| Schemas.ComposeIsFold | openapi_schema/api.go:412-446 | merging a composed sub-schema is merging its flattened leaves one by one |
| Schemas.ComposedIsFlatMerge | openapi_schema/api.go:412-446 | nested `allOf` gives each property of the last leaf that has it, all requirements in order, and the type of the last typed leaf, where a leaf is the own part of a schema with `allOf` or the alternative that a schema without it picks |
| Schemas.ComposeOne | openapi_schema/api.go:412-446 | the whole result for one plain entry in `allOf` |
| Schemas.AlternativeCompleteIff | openapi_schema/api.go:449-463 | without `allOf`, the result has none exactly when the first typed alternative, if one is picked, has none |
| Schemas.CompleteIffEveryPickFlat | openapi_schema/api.go:407-463 | what is merged is every part of the whole unfolding, alternatives included, and no leaf has `allOf`, if and only if the unfolding never picks a composed alternative |
| Schemas.CompleteResultHasAllProperties | openapi_schema/api.go:412-446 | then a property is in the result exactly when some part has it |
| Schemas.ComposedAlternativeLosesProperties | openapi_schema/api.go:407-463 | the losing input: what lies under the `allOf` of a picked alternative does not get into the result |
| Schemas.DepthIrrelevant | openapi_schema/api.go:407-463 | the depth that says the recursion ends is only a witness |
| Schemas.AcyclicUnfolds | openapi_schema/api.go:407-463 | on a graph with a rank that falls along `allOf` the recursion ends, with that rank as depth |
| Schemas.FinishesIffNotEndless | openapi_schema/api.go:407-463 | the recursion ends, with a result or a panic, if and only if the schema is in no collection that the recursion never gets out of, where it gets to an entry only if all entries before it compose |
| Schemas.PanicGuardsCycle | openapi_schema/api.go:472-474 | a first entry that cannot be resolved ends the recursion with a panic, whatever comes after it |
| Schemas.CompareSchemaValues | openapi_schema/utils.go:75-122 | two schema trees compare equal if and only if their shapes are equal, so this is an equivalence relation |
| Schemas.ShapesEqualIff | openapi_schema/utils.go:66-122 | it looks at the first type of both, the items of arrays and the properties of objects, and at nothing else |
| Markers.ParseKeyValuePairs | codegen/markers/parse.go:126-192 | on every input the scanner stays in bounds, ends, and gives what reading pair by pair gives |
| Markers.ScanKey | codegen/markers/parse.go:140-147 | stops at the first '=' |
| Markers.ScanValue | codegen/markers/parse.go:151-170 | stops at the first comma outside quotes and braces |
| Markers.ScanPair | codegen/markers/parse.go:140-188 | one pair and where the next begins |
| Markers.ValueStopsIff | codegen/markers/parse.go:151-170 | the scanner finds the end of a written value, with any escaped quotes in it, if and only if nothing follows or it does not end in a backslash before its closing quote |
| Markers.CutBackIff | codegen/markers/parse.go:140-170 | a written pair is cut into key, value and rest under exactly that condition |
| Markers.ReadBack | codegen/markers/parse.go:140-188 | and then read back with the meaning of its quoted text, or found malformed |
| Markers.ParsePair | codegen/markers/parse.go:140-188 | a printed pair is read back whatever follows it |
| Markers.ParsePadded | codegen/markers/parse.go:131-188 | white space around key and value does not matter, and a malformed quoted text makes the whole input invalid |
| Markers.MissingEqualsFound | codegen/markers/parse.go:145-147 | an input without '=' is an error unless it is blank |
| Markers.ParsePrint | codegen/markers/parse.go:126-192 | the scanner inverts the printer for values with escaped quotes of which only the last may end in a backslash: the map the pairs stand for comes back |
| Markers.EveryPairReadBack | codegen/markers/parse.go:126-192 | with distinct keys every pair is in the result with its meaning |
| Markers.PlainValue | codegen/markers/parse.go:174-181 | quoted values without quotes, backslashes and newlines are among them and stand for themselves |
| Markers.MisreadParse | codegen/markers/parse.go:158-160 | with a quote-free text behind it, a quoted value that ends in an escaped backslash is read with all of that text, and the pairs in it are lost |
| Markers.SwallowedPair | codegen/markers/parse.go:158-160 | one such input and its wrong result |
| Discover.RestResourceConfig.AutoDiscoverExtraMethods | codegen/vastparser/rest_parser.go:160-226 | for every iteration order, what is appended is strictly sorted and holds exactly the normalized non-CRUD operations of the resource that are neither manual nor excluded |
| Discover.AddMethods | codegen/vastparser/rest_parser.go:197-215 | adds each operation of one path that is not there yet, once |
| Discover.SortMethods | codegen/vastparser/rest_parser.go:218-225 | strictly sorted by path and then method, with the same elements |
| Discover.KeyInjective | codegen/vastparser/rest_parser.go:198-214 | the lookup key of an operation identifies it |
| Discover.SortedUnique | codegen/vastparser/rest_parser.go:218-225 | a strictly sorted list is determined by its elements |
| Discover.OrderIndependent | codegen/vastparser/rest_parser.go:181-226 | two passes over one table append the same list |
| Discover.StandardIff | codegen/vastparser/rest_parser.go:232-242 | a path is skipped as standard if and only if its normal form is that of the collection or of `{id}` in it and the collection has no slash |
| Discover.WantedIff | codegen/vastparser/rest_parser.go:181-216 | for a collection without a slash, wanted are exactly the operations of the paths /collection/rest, rest being neither slashes only nor {id}, under their path with one slash at its end, unless listed by hand or excluded |
| Discover.WantedLiesBeneath | codegen/vastparser/rest_parser.go:183-187 | nothing is wanted that does not lie beneath the collection |
| Discover.BeforeIff | codegen/vastparser/rest_parser.go:218-225 | sorted is by path in lexicographic order, and by method where paths are equal |
| Discover.NormalizeIdempotent | codegen/vastparser/rest_parser.go:245-247 | normalizing twice is normalizing once |
| PathBuild.AnalyzePathBuild | codegen/apibuilder/pathparams.go:44-70 | picks the single-id builder exactly when there is one placeholder and it is a whole segment after the first, and cuts the path around it |
| PathBuild.BuildResourcePathWithID | core/utils.go:124-138 | resource path, id and segments with a slash before each |
| PathBuild.ReplaceOnly | core/utils.go:109-119 | if n is the only placeholder name, interpolation replaces exactly the text {n} |
| PathBuild.ReplaceTemplate | core/utils.go:109-119 | in a template with any number of placeholders values are put in by position, or nothing once they have run out, and the names are extracted in order |
| PathBuild.EmptyBracesStay | core/utils.go:16-16 | empty braces are no placeholder |
| PathBuild.UnclosedStays | core/utils.go:16-16 | braces that are not closed are none either |
| PathBuild.IdTexts | core/utils.go:101-106 | a numeric id is written as the numeral that reads back as it, without its fraction, any other as it is |
| PathBuild.BuildersAgree | core/utils.go:109-138 | whenever the single-id builder is picked, it and interpolation give the same path up to slashes at both ends, for every template and id |

## Left out

- HTTP transport, TLS, header consolidation, multipart bodies, interceptors and hooks: a request is an outcome chosen by the environment.
- The typed and untyped resource wrappers, logging, tables, descriptions and error texts: no logic of their own; errors are compared by kind.
- `setInitialized`, `equal` and the two other authenticators of core/auth.go: nothing runs concurrently in them.
- `authorize` is modelled as blocks under its mutex, with sync.Cond as documented: Wait releases and sleeps at once, a broadcast wakes all sleepers. The memory model of Go is not part of this model.
- The int32 wrap-around of the lock counter, which needs 2^31 calls at once.
- The insertion of `page_size` in NewResourceIterator, HasNext, HasPrevious, Count: parameters and getters.
- Cursor.ResourceIterator.All: asks that the links run out after some number of requests, because otherwise the loop has no end; EndsIffNoTrap says exactly when they do.
- Crud.VastResource.List: each operation gets the answers to its own listing as a function; that they show the current store is a hypothesis of the lemmas. Interleaved clients are not modelled.
- Update, GetById and the hints on 404: easy members.
- Polling.WaitAPIConditionConfig.WaitAPICondition: asks that the wait ends, because otherwise the loop has no end; EndsAlwaysIff and EndsAlwaysIffSigns say when it ends whatever happens; for a negative backoff there is only the former. Durations are unbounded integers and the backoff product is exact before truncation.
- MaybeAsyncResultFromRecord: field lookups.
- Letters outside ASCII are not lowered in task states, bool words and float texts; no such letter lowers to one of theirs but the Turkish capital I with a dot.
- The rounding and printing of fractions and of float32 values: such a number is a real that JSON text carries unchanged, and float64 is not bounded. Parsing and printing of non-integers, `%v` of composite values, the shortest digits of a float64 without a fraction and out-of-range float conversions are parameters of the model.
- Codec.RoundTrip: distinct non-empty tag names, no fixed-size arrays, byte slices, pointers to pointers, interface fields, `RawData` or the expression hook, no tags with the `string` option, and strings of valid UTF-8 only. A converted integer of a 64-bit kind whose float64 neighbour is outside the kind, at most 512 (signed) or 1024 (unsigned) away from its end, is left to the machine and excluded.
- Codec.DecodesIffAccepted: field types outside the model (interfaces, maps, byte slices given as base64 text) count as refused; case folding is that of ASCII.
- Codec.Fill: where one object holds a field under several spellings, encoding/json lays the later ones over the earlier; the model takes the field's own name, or zero if it is not among them. Whether filling succeeds is not affected.
- Codec.StructToMap: the recursion into nested structs is the specification function, so only the outermost loop is a method. Below a slice encoding/json takes over and would use the Go name of an untagged field, which the model skips.
- RecordSet.Fill, FromStruct and NewParamsFromStruct: loops over Fill and structToMap.
- Schemas.ResolveComposedSchema: asks that the recursion ends, which FinishesIffNotEndless characterizes; Description and ExternalDocs are not carried.
- Schemas.CompareSchemaValues: finite trees only, because on a cyclic graph the source does not end; the difference messages are left out.
- Markers.ParseKeyValuePairs: strconv.Unquote is a parameter; the text is taken by code points, which finds the same ASCII marks as the bytes of valid UTF-8. splitMarker, parseSlice, parseMap and parseValue would add simpler scanners.
- Discover.RestResourceConfig.AutoDiscoverExtraMethods: one resource per call; the loop over resources repeats it. sort.Slice is replaced by an insertion sort with the same result.
- pathParamToGoName and PathHasIDParam: names for generated code.
- Loading the embedded schema archive and walking Go syntax: the model starts from a loaded table and from marker text.
