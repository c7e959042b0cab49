# musicque: a Dafny model of the song queue, the sessions and the price services

musicque runs a shared listening session. An admin opens a session. Listeners add
YouTube songs with an optional message and vote songs up or down. The player takes
the best-ranked song of the queue: higher vote score first, then earlier addition.
The server also caches gold, petrol and bitcoin prices that it scrapes or fetches.
The client shows a countdown to Tet.

This project models that core in Dafny and proves properties of the model:

- **Store.** The MongoDB collections are the class `Store.Db`. Its songs, sessions and
  users are sequences in natural order, and `nextId` hands out fresh ObjectIds.
  `Db.Valid()` is the invariant every handler keeps: ids are unique and below
  `nextId`, user names are unique, each song's score is what its votes are worth,
  each voter has at most one vote per song, and at most one session is active.
- **Queries.** `findOne` is the first match in natural order. A sorted `find` is the
  matching songs sorted by `(voteScore desc, addedAt asc)`. `Ranking.FindSpec` proves
  that result sorted, a permutation of the matches, and holding exactly the matches.
- **Handlers.** Each controller and route handler is a method on `Db`. Its
  postcondition gives the reply in every branch, and the new store. The
  `playlist_updated` payload a song handler emits is an out-parameter `broadcast`.
  The guard order of `addSong`, `voteSong` and `startSession` is a pure function
  (`AddRejection`, `VoteRejection`, `StartRejection`) with lemmas about it.
- **Voting.** The toggle rule of `voteSong` is the function `Voting.CastVote`. Voting
  the same way twice undoes the vote. Flipping moves the score by two. The score
  always equals up votes minus down votes.
- **Player.** The "next" step of the player is `PlayerClient.PlayNext`: mark played,
  delete, ask for the current song. `NextIsBestRemaining` proves what it shows: the
  best-ranked unplayed song left in the session, or nothing exactly when every
  remaining song there was played.
- **Price services.** These are the TTL caches, the BTMC and PVOIL row readers
  (loops proved against `ReadRows`), the number parsers with their round trips, the
  arrow-icon status, the "Liên hệ" rule, and the VRTL and RON 95-III selection.
- **Countdown.** `TetCountdown.Countdown` is a class whose `Tick` follows `PhaseAt`.
  `PhaseSchedule` proves that phase hides the banner 15 days after Tet, greets
  from Tet until then, and before Tet shows the time left, rounded down to the second.

The session controller's `endSession` and `getCurrentSession`
(`api/controllers/session.controller.js`, lines 140-167 and 170-180) repeat the
steps of the mounted `/end` and `/current` routes. `SessionRoutes.EndSession` and
`SessionRoutes.CurrentSession` model both copies.

Collaborators outside the core are parameters:

- the YouTube lookup is a `VideoLookup` value;
- the clock is `now` and the local hour;
- the scraped page is a sequence of rows of cell texts;
- a price fetch's answer is a `Result`.

Where the specification and the code differ, the code is followed, with one exception:

- `playing` is not in the song schema (`api/models/song.model.js`, lines 16-56), which is
  strict by default. So the running program never saves `song.playing = true`, and its
  `playing` filters either are stripped from the query or match no stored song. The model
  keeps `playing` as a stored field, as the controllers and the player evidently intend.

Everywhere else the code is followed:

- The start guard of both start handlers refuses hours outside 0..23. `getHours()`
  never returns such an hour, so the guard never refuses, whatever its message says
  about opening hours (`SessionRoutes.ClockHoursAreNeverRefused`).
- `parseVNDk` never returns null for a cell of the page, because `Number("")` is 0.
  So `muaVao !== null` always holds, and every BTMC row with five cells and a brand
  is kept (`GoldPrice.RowKept`).
- `btcPrice.service.js` stops serving its cache at exactly 15 minutes. `shouldUpdate`
  asks for more than 15 minutes. At exactly 15 minutes the two disagree
  (`BtcPrice.CacheAndStalenessAgree`).
- The mounted `/:sessionId/playlist` route and the song `DELETE` route return all of
  a session's songs, played or playing included. The controller's
  `getSessionPlaylist` returns only the queue.

## Model

| member | source | states |
|---|---|---|
| SongModel.ParseVoteType | api/models/song.model.js:9-13 | the enum admits exactly "up" and "down"; any other string is refused |
| SongModel.NewSong | api/models/song.model.js:16-56 | a created song has no votes, score 0, is neither played nor playing, and takes `addedAt` from the clock and the message it is given |
| SongModel.CalculateVoteScore | api/models/song.model.js:59-66 | the loop's total is the number of up votes minus the number of down votes, stored in `voteScore` and returned, nothing else changed |
| SongModel.ScoreBound | api/models/song.model.js:59-66 | the score lies between minus and plus the number of votes, and up plus down votes are all the votes |
| SongModel.ScoreWithout | api/controllers/song.controller.js:183-184 | splicing out a vote takes exactly its weight off the score |
| SongModel.ScoreWith | api/controllers/song.controller.js:188-193 | pushing a vote adds exactly its weight to the score |
| SongModel.ScoreRetyped | api/controllers/song.controller.js:185-187 | retyping a vote moves the score by the difference of the two weights |
| UserModel.CreateUser | api/models/user.model.js:5-20 | the name is stored trimmed; creation fails exactly when the trimmed name is empty; `sessionId` and `createdAt` are as given |
| UserModel.FindByName | api/controllers/song.controller.js:99 | finds a stored user whose name is the trimmed query, and finds none exactly when no user has that name |
| UserModel.AddKeepsUnique | api/models/user.model.js:6-11 | adding a user under a name nobody has keeps names unique |
| UserModel.FindByNameAppend | api/controllers/song.controller.js:99-105 | after creating a user under a new name, looking the name up finds that user |
| SessionModel.CreateSession | api/models/session.model.js:3-20 | a new session is active with no end time and the given start and creator; a missing creator fails validation |
| SessionModel.FirstActive | api/routes/session.routes.js:20 | `findOne({ isActive: true })` returns an active stored session, and none exactly when no session is active |
| SessionModel.ActiveIndex | api/routes/session.routes.js:52 | the first position holding an active session, and none exactly when no session is active |
| SessionModel.FirstActiveIsFirst | api/routes/session.routes.js:20 | the session found is the active one at the smallest position |
| SessionModel.ActiveIndexIsFirstActive | api/routes/session.routes.js:52 | the position the end handler updates holds the session `findOne` returns |
| SessionModel.StartKeepsOneActive | api/routes/session.routes.js:19-30 | opening a session when none is active keeps at most one active, and the new one is the one found |
| SessionModel.EndLeavesNoneActive | api/routes/session.routes.js:58-61 | ending the active session of a store with at most one active leaves none active |
| MessageCheck.CheckOutcome | api/controllers/song.controller.js:22-60 | a message that is absent or blank is not checked; otherwise, on its UTF-16 code units, each refusal holds exactly when its rule fails and every earlier rule passes, and the message is accepted exactly when all five rules pass |
| MessageCheck.Check | api/controllers/song.controller.js:23-59 | only a message that is present and not blank can be refused; the five rules run in the handler's order on the message's code units |
| MessageCheck.BlankMessageAccepted | api/controllers/song.controller.js:23 | an absent, empty or white-space-only message is never refused |
| MessageCheck.DigitsOnlyRefused | api/controllers/song.controller.js:53-59 | a message of digits only is always refused |
| MessageCheck.BmpUnits | api/controllers/song.controller.js:25 | a message of characters in the Basic Multilingual Plane has one code unit per character, so its `.length` is its number of characters |
| MessageCheck.AstralMessageAccepted | api/controllers/song.controller.js:25-59 | a message of 1 to 100 characters outside the Basic Multilingual Plane, such as five equal emoji, is always accepted: its surrogates alternate, so the repeat rule never fires |
| Ranking.Select | api/controllers/song.controller.js:121-125 | a filter keeps exactly the stored songs that match it |
| Ranking.SortByRank | api/controllers/song.controller.js:127 | the sort returns a permutation of its input ordered by score descending, then `addedAt` ascending |
| Ranking.InsertSorted | api/controllers/song.controller.js:127 | inserting a song into a ranked list keeps it ranked |
| Ranking.FindSpec | api/controllers/song.controller.js:121-127 | a sorted find is ranked, is a permutation of the matching songs, and holds a song exactly when it is stored and matches |
| Ranking.FindOne | api/controllers/song.controller.js:255-258 | an unsorted `findOne` returns a matching stored song, and none exactly when nothing matches |
| Ranking.FindTop | api/controllers/song.controller.js:262-267 | a sorted `findOne` returns a matching song ranked before every other match, and none exactly when nothing matches |
| Voting.VoterIndex | api/controllers/song.controller.js:178-180 | `findIndex` returns the first position holding the voter's vote, and none exactly when the voter has no vote |
| Voting.CastVote | api/controllers/song.controller.js:182-193 | the toggle rule as an edit of the votes; `CastVoteTransition`, `CastVoteScore` and `CastVoteKeepsOthers` state its effect |
| Voting.CastVoteTransition | api/controllers/song.controller.js:182-193 | with one vote per voter before there is one after, and the voter's vote follows the toggle rule: same type removes, other type flips, none adds |
| Voting.CastVoteScore | api/controllers/song.controller.js:182-196 | the new score is the old score moved by the toggle rule's delta |
| Voting.CastVoteKeepsOthers | api/controllers/song.controller.js:182-193 | the other voters' votes are kept, in their order |
| Voting.ToggleRoundTrip | api/controllers/song.controller.js:182-193 | voting the same way twice, from no vote or from a vote of that type, restores the votes as a multiset and restores the score |
| Voting.FlipThenToggle | api/controllers/song.controller.js:182-193 | voting twice against a standing vote of the other type leaves the voter with no vote, and the score without that vote |
| Store.SongIndex | api/controllers/song.controller.js:158 | `findById` returns the position of a song with that id, and none exactly when no song has it |
| Store.Db.FindOrCreateUser | api/controllers/song.controller.js:168-175 | an existing user under the trimmed name is reused; otherwise one is created for the session; a blank name fails validation with the users unchanged |
| Store.Db.InsertSong | api/controllers/song.controller.js:108-115 | saving a new song appends it under the next id and keeps the store valid |
| Store.Db.ReplaceSong | api/controllers/song.controller.js:196-197 | saving a song overwrites its position only and keeps the store valid |
| Store.Db.RemoveSong | api/routes/song.routes.js:47 | `findByIdAndDelete` removes that position only and keeps the store valid |
| SongController.AddRejectionCases | api/controllers/song.controller.js:14-96 | a song is added exactly when the name is not blank, the message passes, a session is active, the video resolves and no unplayed song of the session has the title; a missing name is reported exactly when the name is absent or blank |
| SongController.AddSong | api/controllers/song.controller.js:14-143 | every rejection leaves the store unchanged; otherwise the new song has a fresh id, the video's title and id, the message or "", the user found or created, the active session and the clock; it is appended, and the queue is broadcast. The users are kept when the name is found; otherwise exactly one user is appended, under the trimmed name in the active session |
| SongController.VotedSpec | api/controllers/song.controller.js:178-197 | a voted song stays well formed, its score moves by the toggle delta, the voter's vote follows the toggle rule, and no other field changes |
| SongController.ApplyVote | api/controllers/song.controller.js:182-193 | the splice / overwrite / push edit on the votes computes the toggle rule |
| SongController.VoteSong | api/controllers/song.controller.js:146-221 | no active session (404), unknown song (404) and a playing song (400) leave the store unchanged; then a blank name fails validation with the users unchanged, and an unknown vote type fails validation; otherwise the vote succeeds: the existing user is reused or one is created for the active session, only that song changes, to its voted form, and the queue is broadcast |
| SongController.MarkSongAsPlayed | api/controllers/song.controller.js:224-244 | an unknown id is 404 with nothing changed; otherwise only that song changes, to played |
| SongController.PickCurrentSpec | api/controllers/song.controller.js:254-269 | the song on air is in the session and playing; a promoted song is the session's best-ranked unplayed song and none of the session was playing; nothing is found exactly when all of the session's songs are played and none is playing |
| SongController.PickCurrent | api/controllers/song.controller.js:254-269 | the song on air, else the best-ranked unplayed song to promote, else nothing; `PickCurrentSpec` states it |
| SongController.PromoteKeepsAtMostOne | api/controllers/song.controller.js:269-272 | marking a song playing in a session with none playing keeps at most one playing, in every session |
| SongController.GetCurrentSong | api/controllers/song.controller.js:247-295 | no active session is 404; a song on air is returned unchanged; else the best-ranked unplayed song becomes playing and the queue is broadcast; else nothing; at most one song per session stays playing |
| SongController.GetPlaylist | api/controllers/song.controller.js:298-317 | no active session is 404; otherwise the reply is ranked, is a permutation of the active session's songs neither playing nor played, and holds exactly those songs |
| SongController.MarkSongAsPlaying | api/controllers/song.controller.js:320-365 | the id is checked first (404), then the session (400); otherwise only that song changes, to playing, and the queue is broadcast |
| SongRoutes.DeleteSong | api/routes/song.routes.js:35-67 | an unknown id is 404 with nothing changed; otherwise exactly that song is removed, no song keeps its id, and the reply is every remaining song of its session, ranked |
| SongRoutes.RemovedIsGone | api/routes/song.routes.js:47 | with ids unique, removing the song at a position leaves no song with its id |
| SessionRoutes.ClockHoursAreNeverRefused | api/routes/session.routes.js:12-17 | every hour `getHours()` can return passes the start guard |
| SessionRoutes.StartSession | api/routes/session.routes.js:9-46 | outside the hours is 400, an active session is 400, both with nothing changed; otherwise an active session by the admin, starting now, is appended and becomes the one found |
| SessionRoutes.EndSession | api/routes/session.routes.js:49-76 | no active session is 404 with nothing changed; otherwise the active session becomes inactive with end time now; no session is active after |
| SessionRoutes.CurrentSession | api/routes/session.routes.js:79-89 | the reply is an active stored session, or null exactly when none is active; in a valid store it is the only active one |
| SessionRoutes.SessionPlaylist | api/routes/session.routes.js:92-107 | the reply is ranked, is a permutation of the session's songs, and holds every song of the session, played or playing included |
| SessionController.CreatorOf | api/controllers/session.controller.js:36 | an admin is stored as `{ username }`; otherwise the user's id, and nothing when the user has no id |
| SessionController.StartRejectionOrder | api/controllers/session.controller.js:9-37 | with a session active the reply is 400 whoever asks; a session is created exactly when the hour passes, none is active, and an admin or a user with an id asks; a user without an id fails validation |
| SessionController.StartSession | api/controllers/session.controller.js:9-137 | every rejection leaves the store unchanged; otherwise a session by the requester starting now is appended, is active, and becomes the one found |
| SessionController.GetSessionPlaylist | api/controllers/session.controller.js:183-198 | the reply is ranked, is a permutation of the session's songs neither playing nor played, and holds exactly those songs |
| PlayerClient.RemovingOnAirLeavesNone | client/src/components/Player/MusicPlayer.jsx:190-191 | deleting the one song on air of a session leaves the session with none on air, so the next current song is promoted |
| PlayerClient.NextIsBestRemaining | client/src/components/Player/MusicPlayer.jsx:188-200 | after the song on air is deleted, the song shown is playing, unplayed, of the session and ranked before every other unplayed song left in it; nothing is shown exactly when every remaining song of the session was played |
| PlayerClient.PlayNext | client/src/components/Player/MusicPlayer.jsx:188-200 | an unknown song aborts the step; otherwise the song is removed and the song shown is the one `getCurrentSong` picks from the rest, or nothing when no session is active |
| PlayerClient.RemovedIsRest | api/routes/song.routes.js:47 | the songs left after a delete are exactly the others, by id |
| PriceCache.TtlCache.constructor | api/services/goldPrice.service.js:8-9 | a cache starts empty, with its TTL |
| PriceCache.Lookup | api/services/goldPrice.service.js:26-31 | a hit returns the data stored under the key |
| PriceCache.StoredIsServed | api/services/goldPrice.service.js:26-31 | data stored at `at` is served exactly while the clock is below `at + ttl`, and storing under one key leaves the other keys as they were |
| PriceCache.StaleStaysStale | api/services/oilPrice.service.js:29-34 | an entry once stale stays stale as the clock moves on |
| PriceCache.TtlCache.Get | api/services/goldPrice.service.js:100-118 | a hit returns the cached data without fetching or storing; a miss returns the fetch's answer and stores its data under the key, an error storing nothing |
| GoldPrice.ParseVNDk | api/services/goldPrice.service.js:11-14 | the result is a whole number of thousands |
| GoldPrice.ParseVNDkReadsThousands | api/services/goldPrice.service.js:11-14 | a price written as digits, with or without a separator, reads as that many thousands of dong |
| GoldPrice.MapArrowToStatus | api/services/goldPrice.service.js:16-23 | on the lower-cased icon name: up exactly when it has `up_arrow`; down exactly when it has `down_arrow` and not `up_arrow`; flat exactly when it has `right_arrow` or `flat_arrow` and neither of those two; unknown exactly when there is no icon or none of the four names |
| GoldPrice.StatusIgnoresCase | api/services/goldPrice.service.js:18 | the status does not change when the icon name is lower-cased first |
| GoldPrice.ContactCells | api/services/goldPrice.service.js:68 | "Liên hệ" is matched in any letter case and inside longer text, and a number never matches |
| GoldPrice.ReadRow | api/services/goldPrice.service.js:55-83 | a kept row has five cells and a brand; the buy price is cell 3 in thousands; the sell price is null exactly when cell 4 says "Liên hệ" |
| GoldPrice.ReadRows | api/services/goldPrice.service.js:54-84 | the row loop as a function: the items of the rows that are not skipped, in row order (`Wrappers.Values` of `ReadRow` mapped over the rows); `ReadRowsConcat` and `ReadRowsFromRows` state it |
| GoldPrice.CollapseKeepsBlank | api/services/goldPrice.service.js:60-61 | collapsing white space keeps a blank brand cell blank and a non-blank one non-blank |
| GoldPrice.RowKept | api/services/goldPrice.service.js:58-73 | a row is kept exactly when it has at least five cells and its brand cell is not blank |
| GoldPrice.ReadRowsConcat | api/services/goldPrice.service.js:54-84 | reading a table is reading its parts one after the other, so items keep row order |
| GoldPrice.ReadRowsFromRows | api/services/goldPrice.service.js:54-84 | every item comes from a row, and there are never more items than rows |
| GoldPrice.FetchBTMC | api/services/goldPrice.service.js:33-98 | the row loop yields the rows read in order; the count is the number of items; the note is trimmed with white space collapsed |
| GoldPrice.GetGoldPrice | api/services/goldPrice.service.js:100-118 | the per-range cache is read first; on a miss the fetched data is stored under the range |
| GoldPrice.VrtlIndex | api/services/goldPrice.service.js:127-134 | the first item whose brand passes both filters, and none exactly when no item does |
| GoldPrice.NeedlesAreUpper | api/services/goldPrice.service.js:129-130 | example: the two fixed needles are already upper case |
| GoldPrice.GetVRTLPrice | api/services/goldPrice.service.js:121-147 | the prices, brand, purity and status of the first item whose upper-cased brand names VRTL Bảo Tín Minh Châu; null exactly when there is no data or no such item |
| GoldPrice.VrtlBrandMatches | api/services/goldPrice.service.js:127-131 | example: the brand as BTMC prints it passes the filter |
| OilPrice.ParseChange | api/services/oilPrice.service.js:15-26 | after trimming, an empty cell or a lone dash is 0; otherwise the size is the value of the digits, and the change is negative exactly when the text starts with a dash and the digits are not all zero |
| OilPrice.ParseVND | api/services/oilPrice.service.js:10-13 | the digits of the cell read in base 10, never null; `Decimal.ParseFormat` and `Decimal.NonDigitIgnored` give its value |
| OilPrice.SignedChange | api/services/oilPrice.service.js:15-26 | a number with no sign, a plus or a minus in front reads as itself, itself or its negation |
| OilPrice.ParseChangeSigned | api/services/oilPrice.service.js:15-26 | a number written bare, with "+" or with "-" reads back as itself, itself, or its negation |
| OilPrice.ReadRow | api/services/oilPrice.service.js:56-83 | a row is kept exactly when it has four cells, a name, a price text and a followed product name; the product is the trimmed name, the price and the change |
| OilPrice.ReadRows | api/services/oilPrice.service.js:55-84 | the row loop as a function: the products of the rows that are not dropped, in row order (`Wrappers.Values` of `ReadRow` mapped over the rows); `ReadRowsFollowed` states it |
| OilPrice.ReadRowsFollowed | api/services/oilPrice.service.js:55-84 | every product kept has a followed name and comes from a row, and there are never more products than rows |
| OilPrice.FetchPVOIL | api/services/oilPrice.service.js:36-96 | the row loop yields the rows read in order; the count is the number of products; the note is fixed |
| OilPrice.GetOilPrice | api/services/oilPrice.service.js:98-116 | the cache under "oil" is read first; on a miss the fetched data is stored |
| OilPrice.Ron95Index | api/services/oilPrice.service.js:125-127 | `find` returns the first product whose lower-cased name includes "ron 95-iii", and none exactly when no product does |
| OilPrice.GetRON95Price | api/services/oilPrice.service.js:119-138 | null exactly when there is no data or no product; otherwise the first RON 95-III product, or the first product when none is RON 95-III |
| OilPrice.GradeLowered | api/services/oilPrice.service.js:126 | the grade in the product name lower-cases to the needle searched for |
| OilPrice.PicksRon95WhenListed | api/services/oilPrice.service.js:64-70 | when the table lists "Xăng RON 95-III", the price picked is a RON 95-III price |
| BtcPrice.ShouldUpdate | api/services/btcPrice.service.js:73-81 | no stored time always needs an update; otherwise an update is due exactly when more than 900000 ms have passed |
| BtcPrice.GetBTCPrice | api/services/btcPrice.service.js:52-70 | the cache under "btc" with a 15-minute TTL is read first; on a miss the fetched data is stored |
| BtcPrice.CacheAndStalenessAgree | api/services/btcPrice.service.js:8-16 | the cache serves a price exactly when no update is due, except at exactly 15 minutes, where the cache misses and no update is due |
| TetCountdown.Decompose | client/src/components/TetCountdown/TetCountdown.jsx:36-41 | hours are below 24, minutes and seconds below 60 |
| TetCountdown.DecomposeSandwich | client/src/components/TetCountdown/TetCountdown.jsx:36-41 | the time shown is the distance rounded down to the second |
| TetCountdown.DecomposeMilliseconds | client/src/components/TetCountdown/TetCountdown.jsx:36-41 | a time within those bounds, plus less than a second, decomposes back into itself |
| TetCountdown.FormatNumberRoundTrip | client/src/components/TetCountdown/TetCountdown.jsx:49 | the padded number reads back as the number and has at least two digits; it starts with a zero exactly below ten, where it is two digits long, and is the plain rendering from ten on |
| TetCountdown.FormatNumber | client/src/components/TetCountdown/TetCountdown.jsx:49 | the result is digits only and at least two long below ten |
| TetCountdown.PhaseSchedule | client/src/components/TetCountdown/TetCountdown.jsx:14-34 | hidden exactly after Tet plus 15 days; greeting exactly from Tet until then; counting exactly up to Tet, with the time left within a second of the distance |
| TetCountdown.Countdown.constructor | client/src/components/TetCountdown/TetCountdown.jsx:4-19 | the component starts with no time left shown, neither expired nor hidden, and its interval running |
| TetCountdown.Countdown.Tick | client/src/components/TetCountdown/TetCountdown.jsx:19-44 | a tick sets the state of the phase at `now`, hiding also clears the interval, a cleared interval does nothing, and hiding and expiry are never undone |
| TetCountdown.Countdown.Render | client/src/components/TetCountdown/TetCountdown.jsx:51-329 | nothing is rendered exactly when hidden; the greeting exactly when expired and not hidden; otherwise the clock of the four padded fields of the time left |
| TetCountdown.ClockShowsTimeLeft | client/src/components/TetCountdown/TetCountdown.jsx:215-326 | each field the clock shows reads back as that part of the time left and has at least two digits |
| Text.Trim | api/services/oilPrice.service.js:16 | the result is the input with white space removed at both ends: an infix with only white space before and after it, empty exactly when the input is all white space, and otherwise neither starting nor ending with white space |
| Text.CollapseSpaces | api/services/goldPrice.service.js:60 | no two white space characters are adjacent after the replacement, every white space left is a plain space, and it is empty exactly when the input is |
| Text.CollapseSplit | api/services/goldPrice.service.js:60 | a character that is not white space splits the replacement into its two sides; with `CollapseRun` this fixes the result for every input |
| Text.CollapseRun | api/services/goldPrice.service.js:60 | a nonempty run of white space alone becomes one space |
| Text.LowerConcat | api/services/goldPrice.service.js:18 | lower-casing works character by character: the lower case of a concatenation is the concatenation of the lower cases |
| Text.Lower | api/services/oilPrice.service.js:126 | each character maps to one or two characters; `LowerConcat`, `ContainsLowered` and `LowerIdempotent` give its behaviour |
| Text.Upper | api/services/goldPrice.service.js:129-130 | upper-casing maps each character in place and keeps the length |
| Text.ContainsLowered | api/services/oilPrice.service.js:126 | a needle found in a string is found, lower-cased, in its lower case |
| Text.LowerIdempotent | api/services/goldPrice.service.js:18 | lower-casing twice is lower-casing once |
| Decimal.KeepDigits | api/services/oilPrice.service.js:11 | the filtered text holds only digits, is no longer than the input, and is the input itself when that held only digits |
| Decimal.Parse | api/services/oilPrice.service.js:11 | `Number` of the digits kept, 0 when there are none; `ParseFormat`, `NonDigitIgnored` and `NoDigitsIsZero` give its value |
| Decimal.ParseFormat | api/services/oilPrice.service.js:10-13 | a rendered number reads back as itself |
| Decimal.NonDigitIgnored | api/services/oilPrice.service.js:11 | a character that is not a digit does not change the value read |
| Decimal.NoDigitsIsZero | api/services/goldPrice.service.js:12 | a string without digits reads as 0, since `Number("")` is 0 |

## Left out

- YouTube: `ytdl.validateURL`, `getVideoID` and `videos.list` are one `VideoLookup` value. A lookup that throws, or finds no item, is `LookupFailed`.
- socket.io: emits are returned as `broadcast` values. Connections, rooms and delivery are not modelled.
- SessionRoutes.EndSession: the `session_updated` broadcast is not returned. Its payload is null and does not depend on the store. The start handlers' broadcast of the new session is left out the same way.
- `populate('addedBy', 'username')` only decorates replies and is not modelled.
- HTTP requests and cheerio scraping: a page is given as its rows of cells, and a fetch's answer is a `Result`. The request headers, URLs and timeouts are left out.
- Constant reply fields are not in the datatypes. These are the oil product's `unit: "VND/lít"` (api/services/oilPrice.service.js:79), which `getRON95Price` copies (:136), and the oil data's `source` URL (:89). For gold they are the item's `unit: "VND"` (api/services/goldPrice.service.js:80) and the data's `unitNote` and `source` (:89-90). Each is a fixed string, or the fixed URL plus the range, and no input changes it.
- `fetchBTCPrice`: its floating-point parsing is left out, and the data is opaque.
- Floating point in the price parsers: values are unbounded naturals. The `Number.isFinite` branches, rounding above 2^53 and `-0` are not modelled.
- GoldPrice.ParseVNDk: it does not model the null that `Number.isFinite` would give for an infinite value, because no digit string of a page reaches it.
- Dates: `now`, the local hour and the Tet instant are parameters. The local-time parse of the Tet date and `setDate` are taken as adding 15 days of 86400000 ms, because Vietnam has no daylight saving time.
- Text.Lower and Text.Upper: only ASCII, the two non-ASCII characters whose lower case is ASCII, and the Vietnamese letters in the needles are mapped. Other letters and other multi-character case maps are left as they are. This is enough for the fixed needles and icon names.
- GoldPrice.Fold: the `i`-flag case folding covers only the letters of "Liên hệ".
- The gold and oil "fetch and save" tasks that the controller's `startSession` starts are left out. They run detached, their errors are swallowed, and they never touch the reply or the session.
- The `GoldPrice` and `OilPrice` collections those tasks write are not part of this model.
- Authentication middleware and the login controller are not part of this model. The admin name and the requester are parameters.
- ObjectId casting: ids are naturals, so the 500s for a malformed id and for database failures are not modelled.
- Concurrency: each handler runs as one atomic step. Two requests racing between `findOne` and `save` are not modelled, for example two starts or two promotions at once.
- `playing` is not declared in the song schema. It is modelled as a stored song field defaulting to false, as the controller intends.
- SongController.GetCurrentSong: "at most one song playing per session" is proved as preserved only by this handler. `markSongAsPlaying` can set a second song playing, and its contract says only what it changes.
- SongController.VoteSong: it does not check that the song belongs to the active session, as in the code. An absent `username`, which Mongoose would turn into the query `{}`, is not modelled: the name is a string.
- SongController.ApplyVote: an unknown vote type is modelled as the save failing validation with the song unchanged. The user created before that save may remain, and the contract allows it.
- MusicPlayer.jsx: only the server calls of `handleNext` and `fetchCurrentSong` are modelled. Playback, speech, the UI state and `refreshPlaylist` are left out.
- The weather service, the games, the chat and the other views are outside the core.
