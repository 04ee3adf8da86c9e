# The text pipeline of a reversible pseudonymizer

The service replaces names and other entities in a text by stand-ins before the text goes to a
language model, and takes the stand-ins back in the model's answer, also while the answer is still
streaming. This project models that pipeline and proves what it promises.

A text is a sequence of code points; bytes appear only where the service counts bytes (offsets,
longest-first order), with the UTF-8 widths of section 3 of RFC 3629. The Unicode tables are a
parameter: a theorem that needs something of them holds for every lawful table
(`Unicode.Lawful`), and `Unicode.AsciiIsLawful` gives one. Loops over Go maps, whose order is not
determined, take any element next.

| module | what it models |
|---|---|
| `Unicode`, `Tokens`, `Ordering`, `Mappings` | case folding, UTF-8 widths, trimming; tokens `<PREFIX_N>`; the longest-first order; name maps |
| `Scanner`, `Replacer`, `Rewriting`, `RewritingOnly` | the alternation as a leftmost, first-alternative scan with a possessive tail; `Replace` as its index-and-builder loop; what it makes of a text, character by character |
| `Streaming`, `StreamRuns`, `StreamExact`, `StreamGuards`, `StreamLimits`, `HoldbackPlaces` | holdback and incremental emission |
| `Reversal`, `Stretches`, `RoundTrip`, `Strays`, `RoundTripPairs`, `RoundTripLimits`, `PlainText` | rewriting with a map and then with its inverse |
| `Windows`, `WindowPlaces` | lines, overlapping windows, byte offsets |
| `NerClient`, `NerCache`, `SpanCache`, `Names`, `DetectionPlaces` | the span model's client, its LRU cache with a time to live, the cache in front of the client, and merging what the windows report |
| `Numbered`, `Pseudonyms`, `Picking`, `Components`, `NameParts` | the two numbered searches, pools and strategies, first and last names |
| `Assignments`, `AddedNames`, `Covering`, `Distinct` | one request's assignment and what it keeps |
| `Sessions`, `SessionLimits`, `ComponentLimits`, `Pseudonymizer` | the store with its atomic merge, interleaved and sequential requests, the handler |
| `Shapes`, `SessionNames`, `FirstNames`, `SequentialRoundTrip` | what a session's pseudonyms look like, and the round trip of every session whose requests come one after the other |
| `Deny`, `DenyPlaces` | the deny-list matcher |

Where the service works by changing things step by step, so does the model: `NERCache` and
`RedisStore` are classes with the source's fields, the loops are loops with invariants, and each is
proved against a specification the theorems are about. `SpanCache.SpansFor`, `Names.DetectNames` and
`Pseudonymizer.Pseudonymize` also take what other callers do between their own steps as a
parameter, so their contracts hold under every interleaving of those steps.

Each operation is also compared with a reference that says what it does in terms of characters alone:
`Rewriting`, `HoldbackPlaces`, `WindowPlaces`, `DetectionPlaces`, `Picking`, `NameParts`, `AddedNames` and
`DenyPlaces` use none of the functions the operations are specified with.

## Properties that need a premise

Some plausible statements are false of this code. For each there is a lemma with a concrete input,
and the exact condition under which the statement holds.

- A longer key that fails its boundary check hides a shorter one (`RejectedKeyHidesShorter`). A key
  that stands as whole words is matched if and only if no longer key matches at its place and no
  earlier match reaches over it (`WholeWordFate`).
- First and last name of one person side by side come back as the full name
  (`PartsComeBackAsWhole`), and a text that itself holds a part of a pseudonym has it replaced on
  the way back, although the reserved check let the pseudonym pass (`FirstNameInText`). The round
  trip brings the text back if and only if the scan nowhere replaces a source whose value makes up a
  full name with what comes behind a space, replaced or not, and the way back takes no value that
  starts in copied characters (`DecomposedRoundTrip`). Two replaced sources can make one up only where
  the full name's key is not the two keys side by side (`PairIsNoKey`). For any map, decomposed or not:
  if and only if no source comes out as the beginning of a longer value that what follows completes,
  and the way back takes no such stray value (`RoundTripFolded`). A value inside a longer word is no
  stray one (`NoneStandComesBack`); a value that the text holds as whole words, with nothing next to it
  replaced and no other value over it, always is (`StandingBreaks`). The only-if halves ask that no
  value stands in the text where its own name does.
- A complete key at the end of a sample is un-replaced when a letter follows
  (`LetterAfterKeyTakesBack`); so is the beginning of a full name whose first name is registered
  without its last (`UnalignedFirstNameTakesBack`), a first name whose full name the continuation
  completes inside a longer word (`BrokenFullNameTakesBack`), and the beginning of a token directly
  behind a token whose name ends in a letter (`GluedTokenTakesBack`). What is shown stays if and only
  if, where the scans of the sample and of the longer text part, the sample's match stays or what is
  shown of the sample's part begins what takes its place (`StreamingExact`); where values begin unlike
  their keys, if and only if both accept the same there or the sample's part is held back whole
  (`HeldExactly`).
- Two requests at once can give two names one pseudonym (`OnePseudonymForTwo`) or leave two keys that
  differ in case only (`TwinKeys`). Over every interleaving neither happens if and only if each merge
  adds pseudonyms, or names, that the store does not have (`RunDistinctIff`, `RunFoldDistinctIff`).
- Requests in a row can give two first names one stand-in, if pool names share a word
  (`OneFirstNameForTwo`): a component's stand-in is not compared with those in use. A step keeps
  pseudonyms distinct if and only if its components' stand-ins are fresh (`StepDistinctIff`); with
  pools whose words all differ they always are (`SequentialInverse`).
- A deny-listed term can be missed behind a match of its own (`SelfOverlapMissed`). The terms that are
  never missed are exactly those without a beginning that returns behind a word of their own
  (`MissedIff`).

Where the documentation and the code differ, the model follows the code. The documentation's
"longest first" is by UTF-8 bytes in the code, for keys and for detections; it is longest-first in
characters too as long as lower-casing keeps every character's width (`SortedLongestFirst`). The
documented token rule "unique by construction" holds while indexes fit 64 bits
(`NextTokenIsFree`), since larger ones are not read back. The documented tail of the alternation is
`'s` or `’s`; the code also takes a bare apostrophe.

## Model

| member | source | states |
|---|---|---|
| Scanner.MatchesOrdered | internal/text/replacer.go:81-116 | The matches are steps of the scan, in order and disjoint, each taking the first alternative that matches and the tail greedily |
| Scanner.LongestTaken | internal/text/replacer.go:55-60 | With longest-first alternatives the key taken is at least as long as every key that matches there |
| Scanner.KeyTaken | internal/text/replacer.go:97-98 | The text taken, lower-cased, is an alternative, so the lookup finds it |
| Scanner.MatchesCover | internal/text/replacer.go:81-116 | Every case-insensitive occurrence of a key starts inside some match |
| Scanner.MatchCaseFolds | internal/text/replacer.go:168-203 | Case-preserving output differs from the stored value in case only |
| Replacer.ApplyCase | internal/text/replacer.go:168-203 | If neither side is a token: a source that holds letters, all upper case, gives the value in upper case; all lower case, in lower case; any other source, and a token on either side, leaves the value as it is |
| Replacer.CasedByLetters | internal/text/replacer.go:168-203 | The casing rule of the specification is the same, letter by letter |
| Replacer.SortedLongestFirst | internal/text/replacer.go:55-60 | Sorting by bytes puts no key before a longer one that begins with it, if lower-casing keeps widths |
| Replacer.RulesUnique | internal/text/replacer.go:46-75 | If no two keys differ in case only, the compiled rules do not depend on map iteration order |
| Replacer.RulesWellFormed | internal/text/replacer.go:97-104 | Every alternative is in the lookup table: the branch that should not happen does not |
| Replacer.MatchOutcome | internal/text/replacer.go:90-113 | With both boundaries clear a match becomes its key's value in the casing of the source, with its tail kept; otherwise it is kept whole |
| Replacer.LongestKey | internal/text/replacer.go:55-60 | A match takes the longest key that stands at its start, if lower-casing keeps widths |
| Replacer.RewriteMatches | internal/text/replacer.go:77-116 | The index-and-builder loop over all matches builds the recursive left-to-right rewriting |
| Replacer.Replace | internal/text/replacer.go:39-117 | Sorting, the lower-cased table and the loop together rewrite the text by the rules of the mapping, and so as the reference says: where keys stand the one of most bytes is taken with its possessive, and becomes its value in the casing of the source if no letter, digit or underscore is next to it, nor an apostrophe before it; everything else is kept |
| Replacer.ScanRewrites | internal/text/replacer.go:81-116 | The scan's rewriting is that of the reference, for every mapping and text |
| RewritingOnly.OneRewriting | internal/text/replacer.go:39-117 | The reference leaves one result only, if no two keys differ in case only and lower-casing keeps widths |
| Ordering.Sort | internal/text/handler.go:270-279 | Keys sorted by bytes descending, then by code point, each once |
| Ordering.SortedUnique | internal/text/handler.go:274-279 | The order fixes the sequence, whatever order the map was iterated in |
| Ordering.SortedByBytes | internal/text/handler.go:274-279 | Of two sorted strings the first has more bytes, or as many and the smaller character where they first differ |
| Streaming.ComputeHoldback | internal/text/holdback.go:23-58 | The greatest number of last characters that start at a word boundary and are a proper prefix of a key, 0 if there is none |
| HoldbackPlaces.HoldbackIs | internal/text/holdback.go:42-57 | What is held back is the longest end of the sample that some continuation completes to a key, at a place where a match may start: no more and no less |
| Streaming.StreamingSafe | internal/text/handler.go:233-240 | For reverse maps that may hold decomposed names: what a sample shows is a prefix of the rewriting of every continuation that undoes no match of the sample and completes no key directly behind one that ends outside a word while its value ends inside one |
| Streaming.EndsKeptUnglued | internal/text/holdback.go:46-49 | The latter never happens for maps in which a key that ends outside a word has a value that does too |
| StreamRuns.SettledAtBoundary | internal/text/replacer.go:81-116 | If no key stands inside another as whole words, every continuation that starts outside a word undoes nothing |
| StreamRuns.StreamingSafeAlone | internal/text/holdback.go:44-56 | For keys that start with no apostrophe or space and neither begin nor begin a later word of one another, nothing shown is taken back, provided that no letter, digit or underscore follows a complete key at the sample's end and the tail the continuation gives it, and that no key is completed directly behind a token whose name ends in a word |
| StreamRuns.BoundaryEndsClear | internal/text/replacer.go:90-95 | A continuation that starts outside a word meets that proviso |
| StreamExact.StreamingExact | internal/text/handler.go:233-240 | For keys of which none begins a later word of another except as its rest, and whatever comes next: nothing shown is taken back if, where the scans of the sample and of the longer text part, the sample's match stays, as the same value or as a full name that begins alike, or what is shown of the sample's part begins what takes its place; and only if, where a key begins another as its first name or inside a word and no value begins with its key |
| StreamGuards.DecomposedStreaming | internal/text/replacer.go:90-95 | With decomposed names and numbered ones nothing shown is taken back if what the continuation makes of each match ends a word and keeps its casing, and no key is completed directly behind a token whose name ends in a word |
| StreamGuards.HeldExactly | internal/text/handler.go:233-240 | Where values begin unlike their keys, nothing shown is taken back if and only if, where the two scans part, both accept the same key, or a first name and its full name, or nothing, or the sample's part is held back whole |
| StreamGuards.KeptStreamDelivers | internal/text/handler.go:204-242 | After any samples whose parts are so kept and the complete text, the client has received exactly the rewriting of the complete text |
| StreamGuards.SampleDeliversIff | internal/text/handler.go:204-242 | One sample and the complete text deliver it if and only if the sample's part is kept |
| StreamRuns.StreamDelivers | internal/text/handler.go:204-242 | After any samples that the rest of the text undoes nothing of, and the complete text, the client has received exactly the rewriting of the complete text |
| StreamRuns.ReverseStream | internal/text/handler.go:213-242 | Every text is rewritten with the reverse map and its holdback computed on the result; modified says whether any text changed |
| StreamLimits.LetterAfterKeyTakesBack | internal/text/holdback.go:44-56 | A complete key at a sample's end followed by a letter is un-replaced |
| StreamLimits.UnalignedFirstNameTakesBack | internal/text/holdback.go:44-56 | A first name registered without its last name takes back the beginning of the full name |
| StreamLimits.BrokenFullNameTakesBack | internal/text/replacer.go:90-95 | A first name shown at a sample's end is un-replaced by a continuation that starts outside a word, if it completes the full name inside a longer word |
| StreamLimits.GluedTokenTakesBack | internal/text/holdback.go:46-49 | Two tokens without a space between: the shown beginning of the second is taken back, because the first one's name ends in a letter |
| RoundTrip.RoundTripFolded | internal/text/replacer.go:39-117 | Rewriting with a map and then its inverse gives any text back, case aside, if and only if no source comes out as the beginning of a longer value that what follows completes, and the way back takes no value that starts in copied characters; keys start with a word character; the only-if half asks for maps inverse on both sides, full names that begin with their first names, and no value that stands where its own name does |
| RoundTrip.RoundTripExact | internal/text/replacer.go:39-117 | It gives back exactly the text if and only if, besides, every replaced source comes back as written |
| Strays.NoneStandComesBack | internal/text/replacer.go:90-95 | The way back takes no such value if none stands there as whole words, or with an end that is no part of a word next to what is, and none reaches from the text into a replacement |
| Strays.StandingBreaks | internal/text/replacer.go:90-113 | A value that the text itself holds as whole words, with nothing next to it replaced and no other value over it, keeps the text from coming back |
| RoundTripPairs.DecomposedRoundTrip | internal/text/components.go:39-72 | With full names in the map, next to first and last names or not, any text comes back, case aside, if and only if the scan nowhere replaces a source whose value makes up a full name with what comes behind a space, replaced or in the text itself, and the way back takes no value that starts in copied characters |
| RoundTripPairs.PairIsNoKey | internal/text/replacer.go:55-60 | Where two replaced sources make one up, the two keys side by side are not a key: the full name has something else between its parts |
| RoundTripPairs.SpelledRoundTrip | internal/text/components.go:39-72 | Where full names are their first and last names with one space between, two replaced sources never do: the text comes back if and only if no last name in the text itself does, and no stray value is taken |
| RoundTripPairs.FreshRoundTrip | internal/text/strategy.go:94-100 | So, if the map holds both names of every full name, every text that holds no pseudonym comes back |
| RoundTripLimits.ExactSpelling | internal/text/replacer.go:168-203 | With a mixed-case value a source comes back as written if and only if it is in stored spelling, or all upper case, or all lower case |
| RoundTripLimits.ExactIff | internal/text/replacer.go:168-203 | With mixed-case values a text that comes back is exactly the text if and only if every source replaced in it was in stored spelling, or all upper case, or all lower case |
| RoundTripLimits.TokenSpelling | internal/text/replacer.go:176-178 | With a token value a source comes back as written if and only if it is in stored spelling |
| RoundTripLimits.WholeWordFate | internal/text/replacer.go:90-113 | A key that stands as whole words is matched if and only if no longer key matches at its place and no match from before reaches over it; where no longer key matches, the scan replaces it there by its value in the casing of the source with its tail kept |
| RoundTripLimits.MatchInRewriting | internal/text/replacer.go:81-116 | What a match becomes stands in the rewriting, before the rewriting of what comes behind it |
| RoundTripLimits.RejectedKeyHidesShorter | internal/text/replacer.go:90-95 | A longer key that fails its boundary check leaves a shorter whole-word key unreplaced |
| RoundTripLimits.PartsComeBackAsWhole | internal/text/components.go:39-72 | First and last name side by side, a pair as above, come back as the full name |
| RoundTripLimits.FirstNameInText | internal/text/strategy.go:94-100 | A pool name passes the reserved check, yet its first name, which the text holds, comes back as another name |
| Windows.CutAt | internal/text/units.go:87-101 | The cut is behind the last sentence end in the overlap, else behind its last whitespace, else at the window's end |
| WindowPlaces.WindowsAreRight | internal/text/units.go:51-101 | Of the windows of a long line: one that does not reach the line's end ends directly behind the last whitespace in the overlap that stands behind `.`, `!`, `?`, `;` or `:`, else behind the last whitespace there, else at its full length; the next starts at the first place in the overlap behind whitespace, else where it ends; an overlap out of range is a quarter of the window |
| Windows.CutWindows | internal/text/units.go:66-84 | The loop ends with a chain of windows from the line's start to its end |
| Windows.WholeSpans | internal/text/units.go:46-84 | Every span of at most the overlap that starts the line or a word lies whole in some window |
| Windows.WindowBounds | internal/text/units.go:66-84 | Windows start in increasing order without gaps, and there are at most ceil(n / (maxChars - 2 overlap)) |
| Windows.CoversLine | internal/text/units.go:66-84 | Every character of the line lies in some window |
| Windows.WindowLine | internal/text/units.go:51-84 | A line that fits is one window; otherwise the chain, each window an exact slice at its byte offset |
| Windows.CharToByte | internal/text/units.go:112-126 | Character offsets become byte offsets if and only if all lie inside the text |
| Windows.SplitUnits | internal/text/units.go:24-44 | The units are exactly the windows of the lines that are not blank, in the order of the text, each a slice of it at its byte offset |
| WindowPlaces.LineHasUnits | internal/text/units.go:24-84 | Every line, between newlines, that is not all whitespace has these windows among the units, in a row |
| WindowPlaces.UnitHasLine | internal/text/units.go:24-84 | And every unit is such a window |
| WindowPlaces.UnitIsSlice | internal/text/units.go:36-37 | A unit is the slice of the text its window says, at the slice's byte offset |
| Windows.UnitInLine | internal/text/units.go:24-84 | A unit is not empty, holds no newline and has at most maxChars characters |
| Windows.UnitsCover | internal/text/units.go:24-44 | Every character of a line that is not blank lies in some unit |
| Windows.SeenInSomeUnit | internal/text/units.go:24-84 | Every span short enough that starts a word, or in a line that is one window, lies whole in some unit |
| NerClient.Detect | internal/ner/client.go:82-93 | The answers of all batches in order, parallel to the texts, if and only if every batch is answered; otherwise the error of a batch that failed |
| NerClient.EachInOneBatch | internal/ner/client.go:82-93 | Each text goes out in one batch, at its place of it, and no batch is empty or over the size |
| NerClient.BatchHolds | internal/ner/client.go:82-93 | And batches hold nothing else |
| NerClient.CompleteIsModel | internal/ner/client.go:74-75 | Whatever the batch size, position i holds the model's spans of text i |
| NerCache.NERCache.constructor | internal/text/nercache.go:52-63 | A new cache is empty |
| NerCache.NERCache.Get | internal/text/nercache.go:79-98 | A read answers only strictly before expiry and moves the entry to the front; an expired entry is removed; counters follow |
| NerCache.NERCache.Put | internal/text/nercache.go:100-119 | A store replaces and moves to the front, or makes room by dropping the last entries and adds in front |
| NerCache.NERCache.Stats | internal/text/nercache.go:72-77 | The number of entries, at most max, and the counters |
| NerCache.RunConsistent | internal/text/nercache.go:79-119 | After every run list and map hold the same keys, each once, and no more than max |
| NerCache.HitIsFresh | internal/text/nercache.go:79-119 | A hit returns the spans of the latest store of its key, strictly before that store's time plus the time to live |
| NerCache.Conserved | internal/text/nercache.go:72-119 | Hits plus misses are the reads; entries, evictions and expiry removals together are the insertions |
| NerCache.CountersCount | internal/text/nercache.go:72-119 | Hits counts the reads that find their key stored and not expired, misses the others, evictions the new keys that meet a full cache |
| NerCache.EvictsLeastRecent | internal/text/nercache.go:110-117 | An entry is evicted only after at least max other keys were stored or hit since its own last use |
| NerCache.Retained | internal/text/nercache.go:79-119 | An entry that was stored and not found expired is still there unless max other keys were used since |
| NerCache.ReadHits | internal/text/nercache.go:79-98 | A read of such an entry hits exactly strictly before its expiry |
| SpanCache.KeyInputInjective | internal/text/nercache.go:122-130 | Different scopes or lines give different inputs to the digest |
| SpanCache.ScopeInjective | internal/text/detector.go:82 | A scope tells its labels and threshold apart from every other |
| SpanCache.ToCached | internal/text/detector.go:142-153 | Exactly the spans of labels that were asked for are stored, in order |
| SpanCache.FromCached | internal/text/detector.go:129-138 | Stored spans are read back one for one |
| SpanCache.ApplyKeepsFaithful | internal/text/detector.go:78-127 | Reads, evictions, expiries and faithful stores keep every entry faithful to the model |
| SpanCache.FaithfulAnswer | internal/text/detector.go:93-98 | A read of a faithful cache misses or gives the model's spans of the labels asked for |
| SpanCache.SpansFor | internal/text/detector.go:78-127 | Under every interleaving with other callers: the texts are looked up in order, a hit brings the model's spans of the labels asked for, each distinct missing text is asked once and brings all of the model's spans, which are then stored; the call fails if and only if the service leaves a batch of what is asked unanswered, with that batch's error; the cache ends in exactly that state, and with nothing stored if the call fails |
| SpanCache.AnswerStored | internal/text/detector.go:117-125 | Once a missed text is answered the cache holds its spans of the labels asked for, for the time to live |
| Names.MergeUnits | internal/text/detector.go:225-244 | Every place reported is kept once with the highest score reported, and nothing else; fails if and only if a span of a known label lies outside its unit |
| Names.SortByPlace | internal/text/detector.go:245-255 | The kept detections in text order, each once |
| DetectionPlaces.RangesAre | internal/text/detector.go:228-236 | Detection fails on a span of a known label that is not empty and reaches outside its unit, and on no other |
| DetectionPlaces.DetectionHasSpan | internal/text/detector.go:225-244 | Every detection comes from a span of a known label that is not empty, with its type, byte offsets and score |
| DetectionPlaces.SpanHasDetection | internal/text/detector.go:225-244 | Every such span has a detection, whose score is no lower |
| DetectionPlaces.DetectionText | internal/text/detector.go:243 | The text of a detection is that of its span |
| DetectionPlaces.DetectionsInOrder | internal/text/detector.go:249-254 | Detections come in the order of their starts, then of their ends, none of one place and type twice |
| Names.CharAtByteLen | internal/text/detector.go:237-242 | Slicing the text at byte offsets gives back the characters they came from |
| Names.CacheTransparent | internal/text/detector.go:78-153 | Answers that may lack spans of other labels give the same detections, or the same failure, as the model's own |
| Names.IdealDetection | internal/text/detector.go:199-256 | If the model reports in each unit exactly the names lying whole inside it, and every name is short enough and starts a word or its line is one window, the detections are the names, once per type, with their byte offsets and text, and nothing else |
| Names.DetectNames | internal/text/detector.go:199-256 | With any faithful cache and any other callers: the texts that miss are asked once; the call succeeds if and only if the service answers every batch of them and the model reports no span outside its unit, and then the detections are those of the model's own answers; it fails with the error of a batch of what was asked, or as malformed when every batch was answered |
| Names.DetectsTheNames | internal/text/detector.go:199-256 | With an ideal model behind it, a service that answers what is asked, or a cache that holds every unit, makes the call succeed with exactly the names |
| Tokens.TokenParses | internal/text/strategy.go:115-157 | A printed token parses back to its prefix and number, whatever digits and underscores the prefix holds |
| Tokens.ParsedToken | internal/text/strategy.go:115 | What parses as a token is printed that way, up to leading zeros |
| Tokens.TokenInjective | internal/text/strategy.go:152 | Tokens of different prefixes or numbers differ |
| Tokens.DecDigits | internal/text/strategy.go:152 | The i-th digit of a numeral from the right counts the i-th powers of ten, and the first is no zero |
| Numbered.EndTellsNumber | internal/text/strategy.go:161-166 | At one place of the reserved text at most one number's rendering ends |
| Numbered.Pigeonhole | internal/text/pools.go:102-111 | No more numbers in a row are taken than there are used strings and reserved characters |
| Numbered.Search | internal/text/pools.go:102-111 | The search stops at the first free number, at most that many steps on |
| Pseudonyms.SyntheticFallback | internal/text/pools.go:96-112 | The smallest positive number whose Prefix-N is free, at most used plus reserved plus one |
| Pseudonyms.AssignFromPool | internal/text/pools.go:54-65 | The first pool name neither used nor reserved, a synthetic name exactly when there is none |
| Pseudonyms.ProbesEachSlotOnce | internal/text/pools.go:81-82 | Probing from any slot looks at every slot, and at none twice |
| Pseudonyms.AssignDeterministic | internal/text/pools.go:75-92 | The first free name in cyclic order from the keyed slot, a synthetic name exactly when every name is used or reserved |
| Pseudonyms.StableAcrossSessions | internal/text/pools.go:67-74 | A real name gets its slot's name in every session where that is free, however it is cased and spaced |
| Pseudonyms.TokenPrefixIsPrefix | internal/text/strategy.go:119-132 | Whatever a type is called, its prefix is one a token can have |
| Picking.PrefixIs | internal/text/strategy.go:119-132 | It is the trimmed type in upper case, underscores for all that is no capital or digit, and none of those at the ends; PII only if nothing is left |
| Pseudonyms.NextToken | internal/text/strategy.go:139-157 | The first token above every index in use that the reserved text lacks, at most reserved plus one past the maximum |
| Pseudonyms.NextTokenIsFree | internal/text/strategy.go:134-157 | It is none of the session's pseudonyms and not written in the reserved text, while its index fits 64 bits |
| Pseudonyms.Assign | internal/text/strategy.go:102-111 | Token, keyed or plain pool assignment by the type's strategy |
| Picking.PicksArePicked | internal/text/strategy.go:80-157 | In characters: the override, then the nominal types, then the default decide; a token is `<`, the type's prefix, `_`, the first number above all in use that the reserved text does not hold, `>`; a pool name is the first free one from the start, or around from the keyed digest of the trimmed lower-cased name; else the head of the type, a hyphen and the first free number from 1 |
| Picking.PlainTypeToken | internal/text/strategy.go:119-157 | A type of capitals, digits and underscores that neither starts nor ends in one gets `<TYPE_N>` |
| Pseudonyms.PickIsFree | internal/text/strategy.go:90-111 | A pseudonym is none of the session's and is not written in the reserved text |
| Components.CheckSafeComponent | internal/text/components.go:81-95 | At least two characters, not starting in lower case, at least two letters |
| NameParts.SafeIs | internal/text/components.go:81-95 | Safe words have at least two characters, the first not in lower case, and letters in two places |
| Components.ComponentMappings | internal/text/components.go:39-72 | Exactly the safe first and last names, each to the first or last word of the pseudonym |
| NameParts.MapOfParts | internal/text/components.go:39-72 | Of two names of several words: exactly the first word with the first, and the last with the last unless it is the first again, case aside; each only if it is safe and differs from its stand-in, case aside |
| Components.ComponentsFoldDistinct | internal/text/components.go:60-66 | No two components of one name differ in case only |
| Assignments.Dedupe | internal/text/handler.go:255-269 | One entity per trimmed text that is not blank, decided by the first detection of the highest score |
| Assignments.HasCaseInsensitiveKey | internal/text/handler.go:374-382 | Whether some key equals the given one, case aside |
| Assignments.RegisterComponents | internal/text/handler.go:305-319 | Exactly the components that are neither allow-listed nor mapped, whatever order they come in |
| Assignments.AssignNew | internal/text/handler.go:250-322 | Texts longest first, each mapped text left alone, each other given a pseudonym and its components; the new mappings are exactly what was added |
| AddedNames.AddedKeys | internal/text/handler.go:250-322 | Every key added is new, case aside: a detected text with the pseudonym picked for the type its best detection says, when all texts of more bytes had been looked at; or a first or last name of a detected person, safe and not allow-listed, for that of the person's pseudonym |
| AddedNames.PartsMapped | internal/text/handler.go:305-319 | Of a person of several words who gets a pseudonym, each such name is mapped afterwards, case aside, unless it is allow-listed |
| AddedNames.DetectionsMapped | internal/text/handler.go:289-320 | Every detection that is not blank has a key that reads like it |
| Covering.AssignmentCovers | internal/text/handler.go:289-320 | An assignment changes no pseudonym and leaves a key, equal case aside, for every detection that is not blank |
| Covering.CoveredGetNothing | internal/text/handler.go:290-296 | Detections that are covered get nothing new, components included |
| Covering.AssignmentKeepsFoldDistinct | internal/text/handler.go:290-318 | An assignment adds no key that differs from another in case only |
| Distinct.AssignmentKeepsSound | internal/text/handler.go:281-321 | If all words of the pool names differ and none looks numbered, an assignment keeps all pseudonyms, components included, pairwise distinct |
| Distinct.ComponentsDistinctIff | internal/text/handler.go:305-319 | Whatever the pools, the components of a name keep pseudonyms distinct if and only if their stand-ins are in use neither before nor twice |
| Distinct.StepDistinctIff | internal/text/handler.go:289-320 | So does the whole step for a new detection |
| ComponentLimits.OneFirstNameForTwo | internal/text/handler.go:305-319 | Two persons in a row whose pool names share a first name both get it as the stand-in of theirs |
| Sessions.MergeInto | internal/mapping/redis.go:48-73 | The script adds exactly the names not mapped yet, and reports whether it changed anything |
| Sessions.RedisStore.GetMapping | internal/mapping/redis.go:156-183 | The session's mapping, empty if there is none |
| Sessions.RedisStore.AddMappings | internal/mapping/redis.go:187-219 | The session becomes the merge in which existing names win, no other session changes, and nothing is written if nothing changed |
| Sessions.RedisStore.Delete | internal/mapping/redis.go:223-232 | The session is gone, whether or not it was there |
| Sessions.RedisStore.GetReverseMapping | internal/mapping/redis.go:235-245 | Every pseudonym goes to a name that has it |
| Sessions.ReverseIsInverse | internal/mapping/redis.go:235-245 | The reverse map is an inverse on both sides if and only if no two names share a pseudonym |
| Sessions.StepSafe | internal/text/handler.go:162-181 | Every read and merge of every request keeps snapshots behind the store and finished requests covered |
| Sessions.StoreGrows | internal/mapping/redis.go:48-73 | Over every interleaving a stored pseudonym never changes |
| Sessions.FirstMergeDecides | internal/mapping/redis.go:48-73 | A name's pseudonym is that of the first merge that names it |
| Sessions.RewritesCover | internal/text/handler.go:162-181 | Over every interleaving a finished request rewrites with a key, equal case aside, for each detection it kept, and agrees with the store ever after |
| Sessions.ReplayAddsNothing | internal/text/handler.go:250-322 | Once a request is done its detections create nothing new at any later point |
| Sessions.MergeKeepsDistinctIff | internal/mapping/redis.go:48-73 | A merge leaves distinct pseudonyms, or keys distinct ignoring case, if and only if they were and what it adds is fresh |
| Sessions.RunDistinctIff | internal/mapping/redis.go:48-73 | Over every interleaving, pseudonyms are distinct at a point if and only if every merge before it added fresh ones |
| Sessions.RunFoldDistinctIff | internal/mapping/redis.go:48-73 | The same for keys, ignoring case |
| Sessions.AloneStoresAssigned | internal/text/handler.go:167-178 | A request that merges into the mapping it read stores exactly what it assigned |
| Sessions.SequentialInverse | internal/mapping/redis.go:235-245 | After any requests in a row, with such pools, keys are distinct ignoring case and the reverse map is an inverse on both sides |
| Sessions.SerialInARow | internal/text/handler.go:162-181 | A run in which nothing is written between a request's read and its own merge leaves what the requests leave one after the other, in the order of their merges |
| Sessions.SerialInverse | internal/mapping/redis.go:235-245 | So with such pools the reverse map is an inverse on both sides after it |
| SessionLimits.OnePseudonymForTwo | internal/mapping/redis.go:56-61 | Two overlapping requests give two names one pseudonym, and no reverse map takes it back to both |
| SessionLimits.TwinKeys | internal/mapping/redis.go:56-61 | Two overlapping requests leave two keys that differ in case only |
| Pseudonymizer.MergeNew | internal/text/handler.go:162-178 | With other requests merging in between, the session becomes their merges and behind them exactly what the assignment adds to the mapping read; nothing to add writes nothing |
| Pseudonymizer.MergedFits | internal/text/handler.go:162-181 | The mapping rewritten with then covers every kept detection and agrees with the session; covered detections add nothing |
| Pseudonymizer.Pseudonymize | internal/text/handler.go:129-182 | Blank text and failed detection change nothing; otherwise the text is rewritten by the rules of the mapping so merged, which covers every kept detection and agrees with the session |
| Pseudonymizer.Reverse | internal/text/handler.go:186-198 | The text is rewritten with an inverse of the session's mapping; empty sessions change nothing |
| Pseudonymizer.MappingReverses | internal/mapping/redis.go:235-245 | Rules compiled from a mapping and from its reverse undo each other if neither names nor pseudonyms differ in case only |
| Pseudonymizer.FreeNotInText | internal/text/strategy.go:94-100 | A pseudonym that passes the reserved check stands nowhere in the text, in whatever casing; its parts may |
| Pseudonymizer.SessionRoundTrip | internal/text/handler.go:184-198 | Pseudonymizing and reversing any text with one session's mapping gives it back, case aside, if and only if no name comes out as the beginning of a longer pseudonym and the way back takes no pseudonym that starts in copied characters; the only-if half asks that lower-casing keeps widths, full names begin with their first names and no pseudonym stands where its own name does |
| Pseudonymizer.SessionPairsRoundTrip | internal/text/handler.go:184-198 | For a session that holds full names next to their parts: if and only if no name is replaced whose pseudonym makes up a full one with what comes behind a space, and no stray pseudonym is taken; where full names are just their parts, only a last name in the text itself can make one up, and if the session holds all parts, a text that holds no pseudonym always comes back |
| Shapes.ShapedDecomposed | internal/text/components.go:39-72 | Pool names of one or two words, parts of them, synthetic names and tokens overlap only as the first or last name of a full one |
| SessionNames.SoundDecomposes | internal/text/handler.go:281-321 | With pool names of one or two words of letters, none of which begins another, case aside, the pseudonyms that assignments leave overlap only so |
| FirstNames.InARowFiled | internal/text/handler.go:305-319 | After any requests in a row the first word of a pool name in use stands for the first word of the name the pool name stands for |
| SequentialRoundTrip.SerialSession | internal/text/handler.go:129-182 | After any requests in a row with such pools, the session meets every premise on pseudonyms that the round trip of a session asks: no two differ in case only, they decompose, and full names begin with their first names |
| SequentialRoundTrip.SerialRoundTrip | internal/text/handler.go:184-198 | So any text rewritten with that session's mapping comes back, case aside, if and only if no name is replaced whose pseudonym makes up a full one with what comes behind a space, and no pseudonym that starts in copied characters is taken on the way back |
| SequentialRoundTrip.TwoPersonsPlain | internal/text/handler_test.go:61 | A pool of two names whose words all differ is such a pool |
| Deny.SortTerms | internal/text/denylist.go:65 | Terms by bytes descending, terms of one length in their old order |
| Deny.NewDenyMatcher | internal/text/denylist.go:43-73 | For each enabled type with terms, its trimmed terms that are not empty, longest first |
| Deny.FindAll | internal/text/denylist.go:83-94 | The spans kept are scanned whole-word matches, pairwise disjoint, and every scanned whole-word match is kept or intersects a kept match of a term at least as long |
| DenyPlaces.KeptArePlaces | internal/text/denylist.go:84-94 | Every span kept reads like a term, case aside, and neither the character before it nor the one behind is a letter, a digit or an underscore |
| DenyPlaces.PlacesKept | internal/text/denylist.go:84-94 | Every such place of a term, if none of its ends outside a word reads like its beginning, is kept or intersects a span kept for a term at least as long |
| Deny.Find | internal/text/denylist.go:77-97 | Exactly the kept spans of every type, as byte offsets and text, each once |
| DenyPlaces.HitsAreListed | internal/text/denylist.go:43-97 | Every hit is such a place of a configured term of its enabled type, with its byte offsets and text |
| DenyPlaces.ListedTermsFound | internal/text/denylist.go:43-97 | Wherever the text holds a configured term of an enabled type between characters that belong to no word, a hit of the type meets the place, for every term that does not return so behind itself |
| Deny.ReportedAreTerms | internal/text/denylist.go:84-94 | Reported spans are whole-word occurrences of terms, pairwise disjoint |
| Deny.FoundOrHidden | internal/text/denylist.go:84-94 | Every whole-word occurrence is reported, or intersects a reported occurrence of a term at least as long, or lies behind an overlapping match of its own term |
| Deny.NeverMissed | internal/text/denylist.go:84-94 | For a term without a beginning that returns behind a word of its own the third case does not occur |
| Deny.MissedIff | internal/text/denylist.go:84-94 | Every other term is missed in some text: exactly these terms are never missed |
| Deny.SelfOverlapMissed | internal/text/denylist.go:85 | A term that returns behind a word of its own is missed in a concrete text |
| Unicode.ByteLenStrict | internal/text/units.go:110-126 | Byte offsets grow strictly with character offsets |
| Unicode.WidthHolds | internal/text/units.go:110-126 | A character takes as few bytes as hold its code point (section 3 of RFC 3629) |

## Left out

- HTTP handlers, router, sessions endpoint, Presidio and the other transports, metrics, logging and
  configuration loading: plumbing and library calls.
- The image handler, which writes to the same sessions.
- The filters between detection and assignment (types, thresholds, allow-list inflection, plausible
  persons), language detection and session identifiers: detections arrive filtered.
- The regular expression engine: the alternation is a scanner. Characters whose regular-expression
  folding and lower-casing differ are treated as if both were lower-casing, and so is
  `strings.EqualFold`.
- Text that is not valid UTF-8, and the replacement character as a boundary.
- SHA-256 and HMAC: a digest stands for its input, and the keyed slot is any function of the name.
- JSON encoding, a corrupt stored payload, Redis failures and session expiry: the store is a map of
  mappings with an atomic merge.
- The 32-bit truncation of cached offsets, and wrap-around of the cache's counters.
- The list elements of the cache are modelled by the sequence of their keys, the entries by the map;
  locking by operations that do not overlap.
- Trimming the configured pools: pools are given as `NewPools` leaves them.
- Upper-casing the first byte of an entity type that does not start in ASCII, and upper-casing or
  lower-casing that changes the number of characters.
- Deny.NewDenyMatcher: no matcher at all is modelled as a matcher without types.
- Deny.Find: the score, which is the same for every hit, is not modelled.
- Pseudonyms.NextTokenIsFree: asks that the index fits 64 bits, because larger indexes are not read back from
  the session; indexes past 64 bits themselves, where the counter would wrap around, are not modelled.
- Pseudonyms.PickIsFree: asks the same of the pseudonym it picks, if that is a token.
- Sessions.SequentialInverse: asks the same of every token in the session, and pools whose words all differ;
  without them `Distinct.StepDistinctIff` says when a step keeps pseudonyms distinct.
- RoundTrip.RoundTripFolded: its only-if half asks that no value, and no value that reaches from the text into a
  replacement, stands in the text where its own name does; `RoundTripPairs.UnlikeTells` gives it where names and values
  start differently.
- SequentialRoundTrip.SerialRoundTrip: asks that synthetic names start with a word that no pool word begins and, like
  tokens, are the same if they agree, case aside; that names start with a letter, digit or underscore; and that
  upper-casing names and pseudonyms changes nothing but case.
- StreamExact.StreamingExact: asks that no key begins a later word of another without being its rest; for such
  keys `Streaming.StreamingSafe` gives a sufficient condition.
- Names.IdealDetection: that the model reports exactly the names is a premise; the wrapper around the model
  is not part of this model.
- Names.DetectNames: the sorted list of labels is a parameter, and offsets outside a text are those of the
  answers as received.
