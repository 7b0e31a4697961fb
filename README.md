# AniSearch core, modelled in Dafny

AniSearch is a chat bot that identifies an anime scene from a screenshot. A
user registers with `/start`, then sends a photo. The bot:

1. Checks that the user is not blocked.
2. Picks a resolution variant of the photo and refuses files over 20 MiB.
3. Re-encodes the image as JPEG. An encoding above 10 MiB is compressed:
   the first of several smaller encodings that fits in 10 MiB replaces it,
   and when none fits it is submitted as it is. The compression is invoked
   above 5 MiB, but leaves anything within 10 MiB unchanged.
4. Submits the image to the trace.moe search service as a multipart upload.
   If that does not give a usable answer, it submits it again as inline
   base64 JSON.
5. Keeps the candidates above 0.87 similarity, or the first three when none
   is above it.
6. Replaces its "searching" message with a card for the best match: title,
   episode, scene time and a catalogue link.

The model covers these parts of that behaviour:

- `Imaging` (`imaging.dfy`) models `compress_image`. It is an imperative
  method with two loops, proved equal to a specification function. Lemmas
  state which encoding it keeps.
- `Selection` (`selection.dfy`) covers the search candidates and the
  similarity filter.
- `SearchClient` (`search_client.dfy`) models `search_anime`: how the
  payload is prepared, the two submission strategies, and how a response
  status becomes a result.
- `Users` (`users.dfy`) models the user table. It is the class `Registry`,
  whose `rows` map is updated in place by the ORM calls the handlers make.
- `Rendering` (`rendering.dfy`) covers `seconds_to_time`, the title
  fallback chain, the AniList link rule and the message text.
- `Handlers` (`handlers.dfy`) models `cmd_start` and `handle_photo`. Each
  handler returns the trace of its effects in order: messages sent or
  edited, file lookups, downloads and searches. An exception that escapes a
  handler ends its trace.

The imaging library, the chat API and HTTP are parameters:

- The imaging library is a `Library` value of functions that return `None`
  when the call raises.
- The chat API is a `Bot` value.
- HTTP is a function from the strategy and payload to the outcome of one
  request.

## Model

| member | source | states |
|---|---|---|
| Imaging.Decode | utils/anime_search.py:22-25 | a decoding that raises gives nothing; an image in a flattened mode is converted to RGB, any other is used as decoded |
| Imaging.Scaled | utils/anime_search.py:37-38 | the scaled length is the truncation of length × percent / 100, never above the length for percents up to 100 |
| Imaging.Attempt | utils/anime_search.py:27-43 | a quality step encodes the image at that quality; a scale step resamples to the truncated size and encodes at quality 70, and gives nothing when resampling raises |
| Imaging.FirstFit | utils/anime_search.py:27-48 | the attempts are tried in order; the result is the input or is within the ceiling |
| Imaging.FirstFitTakesFirstFit | utils/anime_search.py:27-46 | when attempt k is the first that fits, and every earlier one completed over the ceiling, the result is attempt k's output |
| Imaging.FirstFitAbortsOnRaise | utils/anime_search.py:27-52 | an attempt that raises, reached after overflowing attempts only, makes the input the result |
| Imaging.FirstFitAllOverflow | utils/anime_search.py:27-48 | when every attempt completes over the ceiling, the input is the result |
| Imaging.FirstFitSource | utils/anime_search.py:27-48 | any result other than the input is the output of the first attempt that fits |
| Imaging.Compressed | utils/anime_search.py:15-52 | data within the ceiling comes back unchanged; otherwise the result is the data or is within the ceiling |
| Imaging.CompressedSource | utils/anime_search.py:19-46 | a changed result comes from data over the ceiling that decoded, and is the first fitting attempt in quality-then-scale order; a downscaled result means all four qualities overflowed |
| Imaging.CompressedTakesFirstFit | utils/anime_search.py:19-46 | over the ceiling, the first fitting attempt of 85, 70, 55, 40, then 80 %, 60 %, 40 % at quality 70, is returned |
| Imaging.CompressedFallsBack | utils/anime_search.py:19-52 | a decode failure, a raising attempt, or no attempt fitting gives the input back |
| Imaging.NotTheSmallestAttempt | utils/anime_search.py:35-48 | when nothing fits, the input is returned even though every attempt was smaller than it |
| Imaging.CompressImage | utils/anime_search.py:15-52 | the two-loop procedure with early returns computes `Compressed` |
| Selection.ConfidentOnly | utils/anime_search.py:102-105 | keeps exactly the candidates whose similarity (0 when missing) is above 0.87, each as often as before and in input order |
| Selection.Select | utils/anime_search.py:102-107 | with a confident candidate, exactly the confident ones in order; otherwise the first min(3, n); empty only for empty input; always an ordered subsequence |
| Selection.SelectKeepsConfident | utils/anime_search.py:102-107 | similarities 0.95, 0.90, 0.80, 0.60 select the first two |
| Selection.SelectFallsBackToFirstThree | utils/anime_search.py:102-107 | similarities 0.80, 0.70, 0.60 are all kept |
| SearchClient.Reencoded | utils/anime_search.py:57-70 | the quality-90 JPEG of the decoded image, flattened for RGBA, LA, P and CMYK; the raw bytes when any step raises |
| SearchClient.ErrorMarked | utils/anime_search.py:99 | a missing or empty `error` field is not an error (Python truthiness) |
| SearchClient.Usable | utils/anime_search.py:97-99 | a usable response is a 200 with a parsed body; 413 and 429 are never usable |
| SearchClient.Payload | utils/anime_search.py:57-73 | the payload is `Compressed` (10 MiB ceiling) of the baseline encoding at every size, so the 5 MiB trigger has no visible effect; an encoding within 10 MiB is submitted unchanged; undecodable input is submitted raw |
| SearchClient.Answer | utils/anime_search.py:97-156 | a response yields candidates exactly when it is 200, has a parseable body and has no error marker; 413 and 429 yield nothing; the candidates are `Select` of `result`, an ordered subsequence of it |
| SearchClient.SearchAnime | utils/anime_search.py:55-168 | a usable multipart answer is the result; otherwise the JSON answer decides, and the result is present exactly when that answer is usable |
| SearchClient.FallbackNotConsulted | utils/anime_search.py:97-107 | after a usable multipart answer, the JSON request's outcome does not matter |
| SearchClient.FallbackTerminal | utils/anime_search.py:134-161 | after an unusable multipart answer, an exception, any non-200 status, an unparseable body or an error marker on the JSON request means no result |
| Users.NewUser | db/models/users.py:4-11 | a created row has the next primary key, the given uid and username, both timestamps at creation time, and is not blocked |
| Users.Insert | db/models/users.py:4-11 | creation succeeds exactly when the uid is new and the username fits 100 characters; it adds that one row, leaves the others alone, and keeps uid and primary key unique |
| Users.Touch | handlers/start.py:42 | only the matching row's `last_active` changes; the keys and constraints are kept |
| Users.Registry.constructor | db/models/users.py:4-11 | the table starts empty, with primary keys starting at 1 |
| Users.Registry.GetOrNone | handlers/start.py:18 | the row for the uid when there is one, otherwise none |
| Users.Registry.Get | handlers/start.py:44 | the row for the uid, or `DoesNotExist` |
| Users.Registry.Create | handlers/start.py:21-24 | the table becomes `Insert`'s result, or stays the same when the insert fails |
| Users.Registry.UpdateLastActive | handlers/start.py:42 | the table becomes `Touch`'s result; the count is 1 for a known uid, else 0 |
| Rendering.IntString | handlers/start.py:92 | `str(n)` is a canonical numeral: optional minus, no leading zero, never `-0` |
| Rendering.CanonicalIsPrinted | handlers/start.py:92 | a canonical numeral is exactly `str` of the number it denotes, so a canonical text that reads back to n is `str(n)` |
| Rendering.TwoDigits | handlers/start.py:99 | `{:02d}`: for 0 <= n < 10 a `0` followed by the digit; for n >= 10 or n < 0 the canonical numeral of n, with no padding (so 123 and -5 print as `123` and `-5`) |
| Rendering.SecondsToTime | handlers/start.py:96-99 | `MM:SS` of five characters for offsets under 100 minutes; from 100 minutes on, the minutes field before the colon is the unpadded canonical numeral `str(m)` |
| Rendering.SecondsToTimeRoundTrip | handlers/start.py:96-99 | for a non-negative offset, the minutes field denotes ⌊s⌋ div 60 and the seconds field ⌊s⌋ mod 60, so the text reads back as exactly its whole number of seconds |
| Rendering.SecondsToTimeExamples | handlers/start.py:96-101 | 120.4 s gives `02:00`, 126.8 s gives `02:06` |
| Rendering.ZeroClock | handlers/start.py:93-99 | a zero offset prints as `00:00` |
| Rendering.TimeRange | handlers/start.py:93-101 | the start clock, ` - `, then the end clock; a missing `from` or `to` counts as 0 and prints `00:00` |
| Rendering.TitlesOf | handlers/start.py:82-83 | a missing catalogue entry has no titles (so the placeholder name is shown); otherwise its own titles |
| Rendering.FirstTruthy | handlers/start.py:85-90 | the first present, non-empty option, with all earlier ones falsy, or the fallback when all are falsy |
| Rendering.AnimeName | handlers/start.py:82-90 | never empty; native first, then romaji, then English, then the placeholder |
| Rendering.AniListPage | handlers/start.py:111-112 | a link exactly when the id is present and non-zero; it is the catalogue prefix followed by the canonical numeral of the id, i.e. `str(id)` |
| Rendering.EpisodeText | handlers/start.py:92 | a missing episode prints `?`, a null one `None`; a number prints as its canonical numeral, i.e. `str(n)` |
| Rendering.BuildCard | handlers/start.py:79-112 | a card exactly when the similarity key is present, with that similarity, the non-empty title from the fallback chain, the printed episode, the scene time range, and the catalogue link, present exactly when the id is truthy |
| Rendering.CardText | handlers/start.py:103-112 | the text opens with the "found" header followed by the title, episode, time and percentage lines in that order; it ends with the URL and the anchor text exactly when the card has a link, and the link line is then exactly the separator and anchor opening `\n\n🔗 <a href='`, the URL and the anchor close; it is nothing more than header and fields otherwise |
| Rendering.FixtureCard | handlers/start.py:79-112 | similarity 0.95, episode 3, offsets 120.4 to 126.8 and a romaji-only title give `Test Anime`, `3`, `02:00 - 02:06` and no link |
| Rendering.FixtureText | handlers/start.py:103-112 | the fixture's message is the header, then `Test Anime`, `3`, `02:00 - 02:06` and the percentage under their labels, with no link line |
| Handlers.StartTransition | handlers/start.py:15-25 | a known user, or a new one whose creation raises (username over 100 characters), leaves the table unchanged; otherwise the user is added with its username, unblocked, both timestamps `now`; the other rows and the constraints are kept; the table grows by at most one |
| Handlers.StartEffects | handlers/start.py:20-36 | the welcome is the only message, and it is missing exactly when the user is new and creating the row fails |
| Handlers.StartIdempotent | handlers/start.py:17-25 | a second `/start` from the same user changes nothing |
| Handlers.CmdStart | handlers/start.py:15-36 | the registry moves by `StartTransition`; the welcome is sent unless creation raised |
| Handlers.ChosenPhoto | handlers/start.py:54 | the second-largest variant when there are several, the only one when there is one, an error when there are none |
| Handlers.OverSizeLimit | handlers/start.py:57 | a file is refused exactly when its reported size is above 20 MiB; a missing size passes |
| Handlers.ResultText | handlers/start.py:67-121 | no result or an empty one gives the "not found" text; a first candidate without similarity (a KeyError caught by the handler) gives the error text; otherwise the message of the first candidate's card |
| Handlers.SearchEffects | handlers/start.py:53-121 | the trace always ends with exactly one edit of the status message, and nothing before it is a message |
| Handlers.PhotoEffects | handlers/start.py:40-121 | the trace is empty exactly for an unknown user; otherwise it opens with a message and has at most five steps |
| Handlers.BlockedUserNeverSearched | handlers/start.py:44-47 | a blocked user gets only the rejection: no file lookup, download or search |
| Handlers.SizeGateBeforeDownload | handlers/start.py:55-62 | a reported size over 20 MiB ends the request after the file lookup, with the "too large" text |
| Handlers.SearchOnlyPastTheGates | handlers/start.py:42-65 | a search happens only for a registered, unblocked user whose chosen file is within 20 MiB, and it gets exactly the downloaded bytes |
| Handlers.GatesPassedSearches | handlers/start.py:42-65 | conversely, a registered, unblocked user whose chosen file is within 20 MiB and downloads gets a search on exactly those bytes |
| Handlers.FailuresEndInErrorText | handlers/start.py:53-121 | no photo variant, a raising `get_file` or a raising download ends the status message with the error text, with no search |
| Handlers.StatusResolvedOnce | handlers/start.py:49-121 | for an unblocked user the "searching" message comes first and is edited exactly once, last |
| Handlers.FoundShowsFirstCandidate | handlers/start.py:79-114 | a non-empty result shows the card of its first candidate |
| Handlers.SearchDecidesFinalText | handlers/start.py:64-114 | when a search is made, the final edit carries the text for what that search returned |
| Handlers.FixtureMessage | handlers/start.py:64-114 | a search returning the fixture candidate ends with the message showing `Test Anime`, episode `3` and `02:00 - 02:06` |
| Handlers.HandlePhoto | handlers/start.py:40-121 | the registry moves by `Touch`; the trace is `PhotoEffects` of the table before the call |

## Left out

- The bot start-up, the polling loop and the database connection (main.py, db/db.py) are not part of this model.
- `get_anime_info` is not modelled. No handler calls it.
- The imaging library is not modelled: decoding, conversion, JPEG encoding and resampling are opaque parameters. Nothing is claimed about the size or content of their output.
- HTTP, timeouts, query parameters, multipart and base64 framing are left out. The two requests are the outcome of a parameter function applied to the same payload.
- Logging is left out, since it has no effect on results.
- Asynchrony is not modelled. Two concurrent `/start` messages could both pass the lookup, and the second create would then raise.
- The chat API is not modelled. `get_file` and `download_file` are parameters returning `None` when they raise.
- Handlers.StatusResolvedOnce: sending a message (`message.answer`) and editing the status message (`edit_text`) are assumed not to raise. In the source a raising final edit (for example, the chat API refusing an unescaped `<` or `&` in a title under HTML parse mode) is caught and followed by a second edit with the error text, so "edited exactly once" holds only under that assumption.
- Handlers.ResultText: `round(similarity * 100, 2)` and its float printing are a parameter (`formatPercent`), so the percentage text is not pinned down.
- Candidate fields that are present but JSON `null` are not modelled; a null `similarity`, `from` or `to` raises in the source. A `result` of `null`, an `anilist` given as a bare id and a non-object response body are not modelled either.
- Rendering.SecondsToTime: offsets are exact reals, not doubles. `int(width * scale)` in Imaging.Scaled is exact `width * percent / 100`, and the 0.87 comparison is on reals. Double rounding could differ only at boundaries far below a pixel or a similarity step.
- Users.Insert: `uid` is unbounded rather than a 64-bit integer. Timestamps are integers supplied by the caller, and `auto_now` is not modelled as a clock. The username length check assumes the ORM validates `max_length` on create.
- Imaging.CompressImage: the byte ceiling is any integer, not only the default 10 MiB. Image sizes are naturals.

The model follows the code in these cases:

- When no attempt fits, `compress_image` returns its input, not the smallest attempt (`Imaging.NotTheSmallestAttempt`).
- The baseline quality-90 re-encoding always happens. Compression is invoked above 5 MiB but changes nothing below 10 MiB (`SearchClient.Payload`).
- A photo from a user with no row makes `Users.get` raise outside the `try`. The handler stops after the "touch", with no message (`Handlers.PhotoEffects` gives an empty trace).
