# Keyword spotter, Yes-price rule and stream dispatch: a Dafny model

This project models the logic at the centre of a live audio keyword monitor.
A speech-to-text service sends transcript messages. The **spotter** counts
configured keywords in them and does not count the same word occurrence
twice within one utterance. Two small rules sit beside it:

- the **Yes price** of a prediction market, read off its orderbook;
- the choice of the **audio stream URL** for a link.

Modules:

- `Wrappers` (wrappers.dfy): `Option` and `Result`. They stand for Python's
  `None` and for a raised exception.
- `Transcript` (transcript.dfy): the parts of a transcript message the spotter
  reads. A key the message may lack is an `Option`.
- `Spotting` (spotter.dfy): the class `Spotter`, which holds a count map
  `counts` and a seen set `seen` of (text, start time) pairs. Its method `Spot`
  walks the words with a loop. It is proved equal to `SpotSpec`, a function of
  the old state and the message, and the lemmas state what `SpotSpec` does.
  Python exceptions are modelled as results (`Failure`). Whatever the loop
  changed before an exception stays changed, as in the source. For example, a
  new pair is added to the seen set before its count is incremented, so an
  unknown text leaves its pair in the set.
- `Kalshi` (kalshi.dfy): `YesPrice`, the price for buying "Yes" on an abstract
  orderbook.
- `StreamResolver` (stream_resolver.dfy): `GetAudioStreamUrl`. The `yt_dlp`
  extractor is a function the caller passes in.

Word start times are floats in the source. Here they are `real`s, and the model
only compares them for equality. The confidence value is read but never
compared, so the model checks only that the field is present.

Three behaviours of the code are easy to miss, and the model keeps each of them:

- No word is filtered by confidence. The stored threshold is never consulted.
- A word's raw text is the key, with no plural or possessive mapping. So
  "fires", with the keyword "fire" configured, raises `KeyError`
  (`PluralIsNotMapped`).
- A final message clears the seen set before anything else. So a final message
  that re-delivers a pair from an earlier interim message counts it a second
  time (`FinalRedeliveryCountsAgain`).

## Model

| member | source | states |
|---|---|---|
| `Spotting.Spotter.constructor` | spotter.py:3-7 | the counts are keyed by exactly the configured keywords, all 0; the seen set is empty; the confidence threshold is stored (default 0.85) and the per-keyword thresholds are not kept |
| `Spotting.Spotter.Spot` | spotter.py:9-33 | the new counts, the new seen set and the returned matches or exception are those of `SpotSpec` on the old state; every keyword keeps a non-negative count and no count decreases; the word loop is delegated to `Walk` |
| `Spotting.Spotter.Walk` | spotter.py:22-33 | the loop over the words, run on the object's fields: the new counts and seen set, and the returned matches or exception, are those of `Scan` from the old state with no matches yet |
| `Spotting.Visit` | spotter.py:24-31 | one pass of the loop body: a missing field raises `KeyError` with nothing changed; a seen pair changes nothing; a new pair is added to the seen set, then its text's count rises by 1 and the text is appended to the matches, or `KeyError(text)` is raised when the text is not a key; its contract: once an exception is raised, later words change nothing |
| `Spotting.Scan` | spotter.py:24-31 | the loop over a list of words in order, one `Visit` per word; its contract: a run that starts after an exception changes nothing |
| `Spotting.SpotSpec` | spotter.py:9-33 | one `spot` call: the final-message clear, the `channel` and `alternatives` checks, then `Scan` over the first alternative's words; its contract: the count keys never change, and every exception the call raises is a `KeyError` |
| `Spotting.ScanRaisesKeyError` | spotter.py:25-30 | the only exception the word loop raises is `KeyError`: a missing field, or a text that is not a key |
| `Spotting.InitialCountsZero` | spotter.py:6 | the initial count map has exactly the keywords as keys, each mapped to 0 |
| `Spotting.MissingField` | spotter.py:25-27 | reading a word raises `KeyError` exactly when one of `word`, `confidence`, `start` is missing, naming the first missing one in read order |
| `Spotting.SpotFinalForgets` | spotter.py:11-12 | for a final message, the whole outcome does not depend on the seen set before the call |
| `Spotting.SpotNoTranscript` | spotter.py:11-19 | no `channel`, or an empty `alternatives` list: no matches, counts unchanged, and the seen set cleared exactly when the message is final |
| `Spotting.SpotMissingAlternatives` | spotter.py:14-17 | a channel without `alternatives` raises `KeyError("alternatives")` after the final-message clear, with counts unchanged |
| `Spotting.SpotFirstAlternativeOnly` | spotter.py:17-21 | alternatives after the first change nothing, and a missing `words` field behaves as an empty list |
| `Spotting.SpotCounts` | spotter.py:24-33 | the key set of the counts never changes; every match is a keyword; each keyword's count grows by exactly the number of times it occurs in the matches |
| `Spotting.SpotWalk` | spotter.py:21-33 | the call raises nothing exactly when every word has its fields and every pair new to the utterance is a keyword; then the seen set gains exactly the message's pairs, and the matches are the texts of the new pairs, each once, in word order |
| `Spotting.SpotFinalSeen` | spotter.py:11-29 | after a final message that raises nothing, the seen set holds exactly that message's pairs |
| `Spotting.ScanUnknownKeyword` | spotter.py:24-30 | at any position of the words, once the earlier words raised nothing: a well-formed word whose pair is new and whose text is not a key raises `KeyError(text)`; its pair is already in the seen set, and the counts and matches are those left by the earlier words |
| `Spotting.SpotUnknownKeyword` | spotter.py:11-30 | the same for one `spot` call, for a word at any position whose earlier words raise nothing: the call raises `KeyError(text)`; the seen set is the starting set plus the earlier words' pairs and this one; the key set is unchanged and each key keeps exactly the increments the earlier words gave it |
| `Spotting.NewIdsSpec` | spotter.py:27-31 | the new pairs are exactly the message's pairs outside the seen set; none occurs twice; they keep the order of the words |
| `Spotting.ScanCounts` | spotter.py:24-31 | over any run of words, even one that raises: the count keys are unchanged, earlier matches remain at the front, and each key grows by its number of new matches |
| `Spotting.ScanSuccess` | spotter.py:24-33 | the word loop raises nothing if and only if the words are well formed and every new pair is a keyword; then the seen set and matches are as in `SpotWalk` |
| `Spotting.ScanStops` | spotter.py:24-30 | once a word has raised, the remaining words change nothing |
| `Spotting.ScanIgnoresConfidence` | spotter.py:26 | words that differ only in their confidence values give the same outcome |
| `Spotting.FinalRedeliveryCountsAgain` | spotter.py:11-31 | interim "venezuela" at 12.3 counts 1; a final message re-delivering the same pair counts it again (count 2), and then the seen set is just that pair |
| `Spotting.PluralIsNotMapped` | spotter.py:30 | the word "fires", with the keyword "fire" configured, raises `KeyError("fires")` |
| `Spotting.SpotAsWritten` | spotter.py:9-29 | `spot` as written, with the loop reading a set the object never created: counts unchanged, no matches, the seen set only cleared by a final message; the call raises nothing exactly when there is no channel, an empty `alternatives` list, or no words to walk |
| `Spotting.AsWrittenNeverCounts` | spotter.py:28-29 | as written, a message whose first word is well formed raises `AttributeError("seen_in_utterance")` and counts nothing, while the one-set spotter matches that word first |
| `Kalshi.NoBids` | kalshi.py:71-75 | the `no` side of the book: empty when the orderbook or its `no` list is missing, else that list |
| `Kalshi.YesPrice` | kalshi.py:71-88 | no price exactly when the `no` side is empty; otherwise 100 minus the price of the last `no` entry |
| `Kalshi.NoSellersNoPrice` | kalshi.py:71-88 | there is no price exactly when the orderbook is missing, its `no` list is missing, or that list is empty |
| `Kalshi.PriceFromLastNoBid` | kalshi.py:77-84 | with a non-empty `no` list, the price is 100 minus the price of its last entry |
| `Kalshi.OnlyLastBidMatters` | kalshi.py:79 | two books with the same last `no` entry give the same price, whatever comes before it |
| `Kalshi.MaxPrice` | kalshi.py:73-74 | the highest price of a non-empty list of levels: no level is higher, and some level has it |
| `Kalshi.SortedLastIsMax` | kalshi.py:78-79 | in a list sorted low to high, the last entry has the highest price |
| `Kalshi.PriceFromBestNoBid` | kalshi.py:73-82 | on a sorted book, the price is 100 minus the best `no` bid; a best bid in 0..100 gives a price in 0..100 |
| `StreamResolver.Contains` | stream_resolver.py:12 | Python's `in` on strings: a match at the front gives true, and true needs the name to be no longer than the URL |
| `StreamResolver.IsComplex` | stream_resolver.py:10-12 | `any` over the two service names: holds exactly when the URL contains "youtube" or "twitch" |
| `StreamResolver.GetAudioStreamUrl` | stream_resolver.py:3-33 | a URL that is not complex is returned unchanged; a complex one returns the extractor's `url` when extraction succeeds, and the extractor's exception when it fails |
| `StreamResolver.ContainsAt` | stream_resolver.py:12 | the substring test holds exactly when the service name is the slice of the URL at some position |
| `StreamResolver.DirectUrlUnchanged` | stream_resolver.py:12-33 | a URL containing neither "youtube" nor "twitch" is returned unchanged, whatever the extractor |
| `StreamResolver.ComplexUrlExtracted` | stream_resolver.py:12-29 | a URL containing either name returns the extractor's `url` (possibly absent); an extractor failure reaches the caller, with no fallback |
| `StreamResolver.EmbeddedServiceIsComplex` | stream_resolver.py:10-12 | any string containing "twitch" or "youtube" anywhere goes to the extractor |
| `StreamResolver.MixedCaseIsDirect` | stream_resolver.py:10-12 | matching is case-sensitive: "YouTube.com" is returned unchanged |

## Findings

| source | as written | input that shows it | evidently intended | confidence | as-written member | corrected member |
|---|---|---|---|---|---|---|
| spotter.py:28-29 | the loop tests and adds to `self.seen_in_utterance`, but the constructor (spotter.py:7) and the final-message clear (spotter.py:12) use `self.seen_in_sentence`, so the first word raises `AttributeError` | any message with a channel, a non-empty `alternatives` list and a first word that has `word`, `confidence` and `start` | one seen set, created empty, cleared by a final message and consulted and updated in the loop | not executed | `Spotting.SpotAsWritten`, shown by `Spotting.AsWrittenNeverCounts` | `Spotting.Spotter.Spot` (specified by `Spotting.SpotSpec`) |

## Left out

- The audio pipeline is not part of this model: main.py, main_copy.py, deepgram.py and ffmpeg.py. Those files cover decoder subprocesses, websocket send and receive, keepalive timers and task cancellation, which are concurrency and I/O.
- The rest of kalshi.py is not part of this model: the HTTP session, RSA signing and base64 headers, wall-clock timestamps and latency. Nor is the `except` path that returns `(None, 0)`. An orderbook entry here always has a price, so the IndexError an empty entry would raise is not modelled.
- find_ticker.py, test_kalshi.py and config.py are scripts and settings. Config's keyword set appears only as sample input (`SampleKeywords`).
- The `yt_dlp` extractor is a function parameter, not a model of the library. The resolver's console messages are left out.
- JSON values of unexpected types are not modelled: a word field that is present but null (the source ignores a null `confidence` and builds the pair `(text, None)` from a null `start`, while the model reads both as missing and raises `KeyError`), a channel that is null, `alternatives` or `words` that are not lists, or an `is_final` that is neither true nor false nor absent. Start times are exact reals, so floating-point NaN is not modelled.
- The spotter's `keywords` is a set of strings. The source accepts any iterable.
- Spotting.SpotCounts: states the rise in counts key by key (each key rises by its number of matches, and every match is a key) rather than as one sum over all keys.
- Spotting.ScanCounts: the same per-key statement as SpotCounts, over a run of words.
