# Verified model of the video spiders

The repository is a collection of scrapers for TV-box players. Four of its files hold real
algorithms; this project models their logic in Dafny and proves what they are for.

* **The X spider** (`tv/py/X–Musk.py`): a page cache over a forward-only cursor chain
  (`CursorPages`), resumable pools of media cards (`MediaFeed`, and whole runs of requests in
  `FeedRuns`), the cards of a tweet and their identifiers (`MediaCards`), the choice among
  encodings of a video (`Variants`), and the cookie header (`CookieHeader`).
* **The YouTube spider** (`tv/py/0712youtube.py`): lazily extended search pages
  (`SearchSession`), the pruned depth-first scan for videos (`VideoScan`), the brace scanner
  (`BraceScanner`), signature plans (`SignaturePlan`), track selection (`Tracks`) and the play
  token (`PlayToken`).
* **The decrypting range proxy** of the JavRyo spider (`tv/py/JavRyo_t3.py`): counter mode
  (`CounterMode`), the payload in the proxy address (`Payload`) and the proxy itself with a client
  that plays a whole file through it (`AbyssProxy`).
* **The item store of the Pomo page extension** (`tv/html/pomo.mom.js`): its handlers over one
  shared state with loads in flight (`PomoStore`), what every interleaving keeps (`PomoRuns`), and
  when what is shown and played is of the page shown (`PomoPages`).

`Text`, `Numbers`, `Options`, `Paging` and `Ordering` hold what several of them share: decimal numbers,
splitting and trimming, page numbers, and Python's stable descending sort.

Objects that the sources update in place are classes; their methods are proved against functions of
the old state, and the properties are lemmas about those functions. Backends are functions of what
is sent to them. Where a backend may answer differently on a retry (`MediaFeed`) or a request may
fail (`SearchSession`), it is also a function of the number of the request.

`dafny verify dfyconfig.toml` checks the project.

## What does not hold

Some properties one would expect fail; the exact condition under which they hold is proved each time,
and a concrete input on which they fail is given.

* Past the end of a cursor chain the answer is what is at hand before the request (`ServedIs`): the
  page if it is cached, or else what the cursor stored before it leads to, at first the first page.
  It is right exactly inside the chain, or when that is empty and the last (`ServedRightIff`,
  `FreshAnswerRightIff` for an empty cache). An empty cache shows page 1 again for page 3 of two and
  promises a page 4 (`PastEndShowsFirstPage`); page 4 then shows page 2 (`FilledPastEnd`). Asked for
  page by page, a finite chain is shown over and over (`WalkRepeats`). Such requests never disturb the
  pages inside the chain (`RunServesWalk`).
* The proxy is right exactly for ranges that start inside the file and either end not before their
  start or start at its first byte (`RightExactlyWhen`). Two families fail. A range that starts past
  the end is reported with whatever bytes upstream sends, an error page too, because the status is
  never looked at (`PastEndOverruns`, `ErrorPageReported`); when the size probe failed, an open-ended
  range gets there (`OpenRangeBeyondRealEnd`). An open-ended range past the size the payload names is
  fetched with its end before its start (`OpenRangePastEnd`), which a conforming upstream ignores and
  answers with the whole file, so bytes beyond the end are reported (`InvalidRangeOverruns`,
  `WholeFileReported`).
* Without an HLS entry the best encoding need not have the highest bitrate: an entry that is neither
  HLS nor MP4 is dropped if an MP4 entry or an earlier one has its address (`OtherKindCanBeDropped`,
  `LowerOtherCanBeChosen`). It has the highest exactly if every such entry is matched by one that
  counts (`BestIsHighestExactlyWhen`).
* The tweet of a card is not read back when `tweet:` or `::` is in its identifier or forms at its end,
  as for `tweet` itself (`MarkedTidLost`, `TidReadsBackIff`); decimal identifiers are safe
  (`DecimalUnmarked`).
* The index of an online item can repeat when a load of an earlier page completes late
  (`LateEpisodeBreaksIndices`, `OnlineIndexedExactlyWhen`). What is shown after a completion can be of
  another page, also after a load of the right page and after a failure (`LateEpisodeShown`,
  `LateEpisodeStays`, `LateFailureShown`); `CompletionShowsPageExactlyWhen` says when, for every way a
  load can end. A deferred play can play such an item (`LateEpisodePlayed`,
  `ServedPlayOfPageExactlyWhen`). None of this happens as long as every load ends before the page is
  left (`TimelyRunShowsPage`).
* A page's own load is never sent when a load of an earlier page is answered between the page change and
  the scan (`OwnLoadSuppressed`, `OwnLoadSentExactlyWhen`).
* A deferred play is never served once loading has ended with nothing in flight
  (`StrandedReached`, `ServableExactlyWhen`).
* A play list entry cannot be read back when the video id holds a `$` (`EntryReadsBackIff`,
  `DollarIdMisread`), and the list cannot be split when it completes a `$$$` (`ListSplitsBackIff`,
  `DollarsSplitList`).
* A signature plan can be undone exactly when it drops nothing (`RestoresExactlyWhen`,
  `DroppedIsLost`).

## Model

| member | source | states |
|---|---|---|
| CursorPages.CacheKeyInjective | tv/py/X–Musk.py:708-720 | A cache key determines the request key, the kind of entry and the page, so different requests never share an entry |
| CursorPages.PutKeeps | tv/py/X–Musk.py:717-725 | Storing an answer of the walk and its cursor keeps every entry in agreement with the walk and leaves other keys alone |
| CursorPages.PageCache.Store | tv/py/X–Musk.py:717-725 | The two dictionary updates are that step, and keep the agreement |
| CursorPages.PageCache.Fill | tv/py/X–Musk.py:714-720 | The loop over the pages before the one asked for, with its break, fills the gap as the lemmas say |
| CursorPages.FilledKeeps | tv/py/X–Musk.py:714-721 | Inside the chain filling the gap leads to the walk's cursor; past its end the cursor before the page stays as it was |
| CursorPages.JumpCaches | tv/py/X–Musk.py:713-725 | Asking a new cache for a page of the chain caches that page and all before it |
| CursorPages.PageCache.Lookup | tv/py/X–Musk.py:706-725 | Cache lookup, gap filling and fetch are one request of the runs below |
| CursorPages.PageCache.Paged | tv/py/X–Musk.py:706-726 | A request shows all items of the walk's page inside the chain, with a further page promised exactly if the chain has one, and past its end what is at hand, which is right exactly when that is empty and the last; it keeps the agreement and leaves other keys alone |
| CursorPages.ServedIs | tv/py/X–Musk.py:706-726 | From any cache in agreement with the walk: inside the chain the walk's page is served, past its end what is at hand before the request |
| CursorPages.ServedRightIff | tv/py/X–Musk.py:706-726 | The answer shown is the right one exactly inside the chain, or when what the cache has at hand before the request is empty and the last |
| CursorPages.RunServesWalk | tv/py/X–Musk.py:706-726 | After any requests for any keys in any order, a page of the chain is served as a walk from the start finds it |
| CursorPages.FreshServes | tv/py/X–Musk.py:712-726 | With neither the page nor a cursor before it cached, the answer is an empty cache's, whatever else is cached |
| CursorPages.WalkRepeats | tv/py/X–Musk.py:712-726 | A finite chain asked for page by page is shown over and over: page p shows the chain's page counted around |
| CursorPages.FilledPastEnd | tv/py/X–Musk.py:706-729 | On the two-page chain, after page 3 was asked for, page 4 shows page 2 as the last page |
| CursorPages.PageCountTellsNext | tv/py/X–Musk.py:728-729 | The page count promises a further page exactly if the chain has one, and the last page counts its items |
| CursorPages.FreshAnswerRightIff | tv/py/X–Musk.py:712-726 | With an empty cache the answer is the right one exactly inside the chain, or when the chain is one empty page |
| CursorPages.PastEndShowsFirstPage | tv/py/X–Musk.py:718-726 | A two-page chain on which page 3 shows page 1 and a page count of 4 |
| MediaFeed.FeedCache.Request | tv/py/X–Musk.py:662-693 | The loop takes the feed to the first state that settles the page, and the view is that page of the pool |
| MediaFeed.FeedCache.FetchRound | tv/py/X–Musk.py:579-610 | One fetch is one round of the state machine: an empty answer with a new cursor only moves on, two empty ones end it, items are pooled once per key |
| MediaFeed.FeedCache.AddItems | tv/py/X–Musk.py:683-688 | The nested loops over items and their cards add exactly the new cards |
| FeedRuns.NewCardsAreFirsts | tv/py/X–Musk.py:683-688 | An answer adds, in order, exactly the cards that are the first with a non-empty unseen key |
| FeedRuns.RoundKeepsInv | tv/py/X–Musk.py:669-692 | A round only appends to the pool, keeps keys distinct and equal to the seen-set, and gives every keyed card of the answer a place |
| FeedRuns.ReachableInv | tv/py/X–Musk.py:662-693 | After any run of requests from a reset the pool's keys are distinct, non-empty and exactly the seen-set |
| FeedRuns.FetchesBounded | tv/py/X–Musk.py:668-669 | A request makes at most the page's budget minus the rounds already used in fetches, and none once done |
| FeedRuns.SpiderBudgets | tv/py/X–Musk.py:578-668 | The rounds after a request are at most those before or max(120, 80p) for a user's media, max(30, 20p) for home videos; a request gives up only when they are spent or the feed is done, and fetches nothing for a full page |
| FeedRuns.AdvanceSettles | tv/py/X–Musk.py:668-668 | A request stops only with the page full, the feed done or the budget spent |
| FeedRuns.RunIsHighest | tv/py/X–Musk.py:662-693 | Whatever pages were asked for, in any order and with repeats, the state is that of asking once for the highest |
| FeedRuns.FullPageStays | tv/py/X–Musk.py:695-700 | A page only grows at its end over any later run, so a full page never changes |
| FeedRuns.LastPageIsLast | tv/py/X–Musk.py:695-704 | Once the page count equals the page, no later run changes anything and every page beyond is empty |
| FeedRuns.PagesTile | tv/py/X–Musk.py:695-700 | Pages 1 to n laid end to end are the pool's first n pages' worth of cards |
| FeedRuns.PageCountTellsMore | tv/py/X–Musk.py:695-704 | The page count promises a further page exactly if the feed may grow or that page holds a card; otherwise the total counts the pool |
| FeedRuns.CursorIsLastNew | tv/py/X–Musk.py:670-692 | Until it is done a feed asks with the last cursor named that was new, read off the answers alone |
| FeedRuns.DoneExactlyWhen | tv/py/X–Musk.py:672-692 | An answer ends the feed exactly if it has items but no new cursor, or is the second with neither and no items came between |
| FeedRuns.DoneStays | tv/py/X–Musk.py:668-668 | A feed that is done never changes again |
| FeedRuns.RunExplained | tv/py/X–Musk.py:662-693 | Every state a run from a reset reaches is the state after its answers in turn, whatever the backend said |
| FeedRuns.RunDoneExactlyWhen | tv/py/X–Musk.py:668-692 | After any run from a reset the feed is done exactly if its last answer had items but no new cursor, or was the second with neither and no items between |
| MediaCards.Cards | tv/py/X–Musk.py:904-924 | The loop prints one card for every playable video, or else one for the photos, and none without an identifier |
| MediaCards.TidReadsBackIff | tv/py/X–Musk.py:1520-1521 | The tweet of a video or photo card is read back exactly if its identifier neither holds `tweet:` or `::` nor completes one with the colon after it |
| MediaCards.DecimalUnmarked | tv/py/X–Musk.py:1520-1521 | Decimal identifiers meet that condition |
| MediaCards.MarkedTidLost | tv/py/X–Musk.py:1520-1521 | The identifier `tweet` reads back as `:video` |
| MediaCards.SelectedReadsBack | tv/py/X–Musk.py:945-950 | The video of a card is read back from its identifier |
| MediaCards.CardIdInjective | tv/py/X–Musk.py:916-916 | An identifier determines tweet and video, so two cards never share a key of the pool |
| MediaCards.CardOpensItsVideo | tv/py/X–Musk.py:940-956 | Every card printed opens exactly one playable video, and of its own tweet exactly if the identifier meets that condition |
| MediaCards.CardForEachVideo | tv/py/X–Musk.py:911-918 | Exactly the playable videos have a card |
| MediaCards.CardsInOrder | tv/py/X–Musk.py:911-918 | The cards stand in the order of their videos |
| MediaCards.PlainIdOffersAll | tv/py/X–Musk.py:945-953 | An identifier without `::video::` offers every video |
| MediaCards.GoneVideoOffersAll | tv/py/X–Musk.py:945-953 | A card whose video is gone offers every video |
| Ordering.SortDescends | tv/py/X–Musk.py:884-884 | The sorted list is a permutation in descending order |
| Ordering.SortIsStable | tv/py/X–Musk.py:884-884 | Elements of equal rank keep their order |
| Ordering.FirstOfSorted | tv/py/X–Musk.py:902-902 | The first of the sorted list is the first element of highest rank |
| Variants.Clean | tv/py/X–Musk.py:883-893 | The loop keeps exactly the entries that are the first with their key in the considered order |
| Variants.KeyIsFront | tv/py/X–Musk.py:1517-1518 | A key is the front of the address up to the first `?tag=`, or all of it |
| Variants.TagIgnored | tv/py/X–Musk.py:1517-1518 | Addresses that differ only behind `?tag=` share a key |
| Variants.CleanKeepsEachKeyOnce | tv/py/X–Musk.py:883-893 | Cleaning keeps exactly one entry for every non-empty key of the input |
| Variants.CleanIsOrdered | tv/py/X–Musk.py:884-893 | HLS entries come first, then MP4 by non-increasing bitrate, then the rest |
| Variants.CleanStartsWithHls | tv/py/X–Musk.py:885-893 | The list starts with the first-of-their-key HLS entries in input order |
| Variants.BestIsFirstHls | tv/py/X–Musk.py:895-901 | The best of the cleaned list is the first HLS entry with a non-empty key, if the input has one |
| Variants.BestBeatsMp4 | tv/py/X–Musk.py:895-902 | Without a keyed HLS entry it is a keyed input entry, and no keyed MP4 entry has a higher bitrate |
| Variants.BestIsHighestExactlyWhen | tv/py/X–Musk.py:883-902 | Without a keyed HLS entry no keyed entry has a higher bitrate than the best, exactly if every keyed entry of another kind is matched by one that is MP4, or the first of other kinds with its address and shares it with no MP4 entry |
| Variants.BestReachesIff | tv/py/X–Musk.py:883-902 | The best reaches an entry's bitrate exactly if an entry that counts does |
| Variants.LowerOtherCanBeChosen | tv/py/X–Musk.py:886-893 | Of two entries of another kind with one address the first is kept and chosen, though its bitrate is lower |
| Variants.OtherKindCanBeDropped | tv/py/X–Musk.py:884-893 | An entry of another kind with the address of an MP4 entry is dropped in spite of its higher bitrate |
| CookieHeader.ReadCookies | tv/py/X–Musk.py:206-214 | The loop over the pieces computes the dictionary the lemmas speak about |
| CookieHeader.LastPieceWins | tv/py/X–Musk.py:208-213 | A key is read exactly if some piece names it, and with the value of the last such piece |
| CookieHeader.NoLaterNaming | tv/py/X–Musk.py:208-213 | No piece after that one names the key |
| CookieHeader.PieceCutsAtFirstEquals | tv/py/X–Musk.py:209-213 | A piece is cut at its first `=` and trimmed on both sides; without key or value it is nothing |
| CookieHeader.CookiePrefixDropped | tv/py/X–Musk.py:217-219 | A leading `Cookie:` in any case is dropped with the blanks around it |
| CookieHeader.CookieWordDropped | tv/py/X–Musk.py:217-219 | It is dropped in capitals, small letters or a mixture |
| CookieHeader.BreaksTakenOut | tv/py/X–Musk.py:208-208 | Line breaks are taken out wherever they are, and nothing else |
| CookieHeader.ParsedIsClean | tv/py/X–Musk.py:206-214 | Every value read is non-empty, trimmed and free of separators and line breaks |
| CookieHeader.ParseRender | tv/py/X–Musk.py:223-223 | Reading what a clean dictionary prints gives back exactly its kept keys |
| CookieHeader.AllFourPrinted | tv/py/X–Musk.py:223-223 | `auth_token`, `ct0`, `twid` and `lang` are printed in this order, joined by a semicolon and a blank |
| CookieHeader.LanguageAdded | tv/py/X–Musk.py:220-223 | A normalised header keeps exactly those four keys and gets the language `zh-cn` if it has cookies but no language |
| CookieHeader.NormalizedParses | tv/py/X–Musk.py:216-223 | Reading a normalised header gives the header's cookies, the default language added when there are any, restricted to the kept keys |
| CookieHeader.NormalizeIdempotent | tv/py/X–Musk.py:216-223 | Normalising twice is normalising once, for every header |
| SearchSession.AnswerIsExpected | tv/py/0712youtube.py:1166-1169 | A prefix of the chain that reaches the page, or the chain's end, answers as the whole chain: its list, and more exactly if there is a next page |
| SearchSession.NextPageFollows | tv/py/0712youtube.py:1191-1208 | A page beyond the first is the site's answer to its predecessor's token, or empty without an interface key |
| SearchSession.ExpectedPage | tv/py/0712youtube.py:1161-1169 | So the answer to a later page is that page's videos and whether it names a token, or nothing past the end |
| SearchSession.SameFirstSameChain | tv/py/0712youtube.py:1156-1160 | Queries with the same first page, interface key and client context have the same chain, so sharing a session is harmless |
| SearchSession.SharedSession | tv/py/0712youtube.py:1147-1157 | Queries share a session exactly if they are the same when normalised |
| SearchSession.Session.FollowToken | tv/py/0712youtube.py:1191-1208 | Following a token extends the prefix by one page, or fails and changes nothing |
| SearchSession.Session.Extend | tv/py/0712youtube.py:1161-1165 | The loop ends with the page stored or the chain exhausted, keeping a prefix of the chain even when a request fails |
| SearchSession.SearchCache.SearchPage | tv/py/0712youtube.py:1154-1169 | Every answer is the answer of the whole chain the session was started from, for a later page the site's answer to the token before it; failures are failed requests; other sessions are untouched |
| VideoScan.AbsorbKeepsFirsts | tv/py/0712youtube.py:1251-1254 | The unpruned walk keeps, in visit order, exactly the candidates that are the first with their id |
| VideoScan.VisitFindsAll | tv/py/0712youtube.py:1245-1259 | The candidates are exactly the videos that some object of the document, however deep, holds under one of the four renderer names |
| VideoScan.OwnBeforeNested | tv/py/0712youtube.py:1248-1256 | An object's own renderers come first, by name, and then its values as if in an array |
| VideoScan.ItemsInOrder | tv/py/0712youtube.py:1257-1259 | Items of an array are visited one after the other |
| VideoScan.AlikeNext | tv/py/0712youtube.py:1246-1247 | Pruning one subtree after another never changes the list below the limit |
| VideoScan.Scanner.Scan | tv/py/0712youtube.py:1245-1259 | The pruned walk of any document agrees with the unpruned one up to the limit |
| VideoScan.ExtractVideos | tv/py/0712youtube.py:1242-1261 | The result is the first `limit` videos with distinct ids in visit order, for every document, and all of them are rendered somewhere in it |
| BraceScanner.ScanObject | tv/py/0712youtube.py:817-844 | The loop with its depth, string and escape flags computes the character machine |
| BraceScanner.ExtractJsonAfter | tv/py/0712youtube.py:810-844 | Finding the marker and the brace and scanning from there gives the text the lemmas speak about |
| BraceScanner.StringPasses | tv/py/0712youtube.py:822-834 | A JSON string passes whatever it holds: braces and escaped quotes inside never count |
| BraceScanner.ValuePasses | tv/py/0712youtube.py:820-839 | Inside an object every JSON value leaves the depth as it was and never ends the scan |
| BraceScanner.ObjectIsReadWhole | tv/py/0712youtube.py:820-841 | An object text is read to its last brace and no further, whatever follows |
| BraceScanner.ObjectIsCutOut | tv/py/0712youtube.py:810-844 | An object text after the first marker with no earlier brace is cut out exactly |
| BraceScanner.BrokenOffIsNone | tv/py/0712youtube.py:820-844 | An object text that breaks off, wherever it does, is not taken for an object |
| BraceScanner.CutOutIsObject | tv/py/0712youtube.py:811-841 | What is cut out stands at the first brace behind the first marker and ends in a brace, for every text |
| BraceScanner.NotOnlyJson | tv/py/0712youtube.py:822-834 | A backslash escapes outside strings too, and single quotes open none |
| SignaturePlan.Decrypt | tv/py/0712youtube.py:619-628 | The loop runs the plan's steps in order |
| SignaturePlan.PlanExample | tv/py/0712youtube.py:619-628 | A plan with every kind of step, a swap beyond the end among them, computed |
| SignaturePlan.RunPicks | tv/py/0712youtube.py:619-628 | Each output character is the input's at a position computed from the plan and the length alone |
| SignaturePlan.OriginsDistinct | tv/py/0712youtube.py:619-628 | No input character is used twice |
| SignaturePlan.RunLength | tv/py/0712youtube.py:623-624 | The output is shorter by exactly the sum of the slices, down to nothing |
| SignaturePlan.ReversePlanRestores | tv/py/0712youtube.py:620-627 | A plan that drops nothing is undone by its steps in reverse order |
| SignaturePlan.RestoresExactlyWhen | tv/py/0712youtube.py:620-627 | Reversing the plan restores a non-empty text exactly if it drops nothing; otherwise no plan does |
| SignaturePlan.DroppedIsLost | tv/py/0712youtube.py:623-624 | A plan that drops one character takes `ab` and `cb` to the same text |
| Tracks.CandidateMembers | tv/py/0712youtube.py:390-395 | The candidates exactly: under the cap if any format is, and VP9 if any of those is |
| Tracks.HdrIff | tv/py/0712youtube.py:422-426 | A format is HDR exactly by the names `vp9.2` and `vp09.02` or its colour metadata |
| Tracks.Vp9Iff | tv/py/0712youtube.py:372-378 | The formats preferred are exactly those that name `vp9` or `vp09` |
| Tracks.CodecOrder | tv/py/0712youtube.py:372-385 | Codecs rank as VP9 with HDR, VP9, H.264, AV1, any other |
| Tracks.CapIsReached | tv/py/0712youtube.py:391-393 | A VP9 format of exactly the cap's height is a candidate, and its class gets a track no lower |
| Tracks.TracksAreBest | tv/py/0712youtube.py:396-411 | At most an SDR and then an HDR track, each named for its class and maximal by height and bitrate in it |
| Tracks.TrackForEachClass | tv/py/0712youtube.py:396-411 | A class has a track exactly if it has a candidate |
| Tracks.TracksFitCap | tv/py/0712youtube.py:391-392 | No track exceeds the cap if some video-only format fits under it |
| Tracks.TracksFitLines | tv/py/0712youtube.py:391-392 | The caps are 2160 lines for the best and for 4k, 1440 for 2k and 1080 for any other quality |
| Tracks.TrackNames | tv/py/0712youtube.py:400-411 | Tracks are named `HDR` and `SDR` by the class of their format |
| Tracks.NothingPlayable | tv/py/0712youtube.py:334-352 | Without a video-only format there is nothing playable at any quality |
| Tracks.PlayableIsBest | tv/py/0712youtube.py:334-361 | The format chosen is of the height the quality asks for and best by codec, height and bitrate, and there is none only if no format is wanted |
| Tracks.FallbackIsDead | tv/py/0712youtube.py:412-418 | The fallback never adds a track, and there are no tracks exactly without a video-only format |
| PlayToken.ListSplitsBackIff | tv/py/0712youtube.py:922-943 | Splitting the printed list gives its entries back exactly if the video id does not complete a separator |
| PlayToken.DollarsSplitList | tv/py/0712youtube.py:922-943 | For the video id `$$x` the printed list does not split back |
| PlayToken.TokenReadsBackIff | tv/py/0712youtube.py:951-958 | The bare token reads back to its video id and quality exactly if the id holds no `$` |
| PlayToken.QualityRead | tv/py/0712youtube.py:952-958 | Without `@` the quality is 1080p, the five known ones are read, and an unknown one counts as the best |
| PlayToken.EntryReadsBackIff | tv/py/0712youtube.py:951-958 | A whole entry reads back exactly if the video id holds no `$` |
| PlayToken.DollarIdMisread | tv/py/0712youtube.py:951-958 | For the video id `a$b` an entry reads back as the video `b` |
| PlayToken.EntryPlaysItsTrack | tv/py/0712youtube.py:961-966 | Every entry printed for a track selects exactly that track |
| PlayToken.PlaysWantedClass | tv/py/0712youtube.py:961-963 | The quality `hdr` plays the HDR track and any other the SDR track |
| PlayToken.FallsBackToFirst | tv/py/0712youtube.py:963-965 | Without a track of that class the first track plays |
| PlayToken.EntriesAre | tv/py/0712youtube.py:915-936 | There is one entry for every track in order, or one for each class without tracks |
| PlayToken.EntryExample | tv/py/0712youtube.py:927-927 | How an entry looks |
| PlayToken.NameExamples | tv/py/0712youtube.py:923-925 | A source is named by its height, when it is known, and its class |
| PlayToken.SafeTitleIs | tv/py/0712youtube.py:1285-1288 | Each unsafe character of a title becomes a blank, sixty characters are kept, and an empty title is `video` |
| CounterMode.CtrStream.Decrypt | tv/py/JavRyo_t3.py:430-433 | The cipher object continues its key stream from where it stands |
| CounterMode.PieceIsSlice | tv/py/JavRyo_t3.py:423-435 | Decrypting a slice where it stands is slicing the decrypted file |
| CounterMode.UnalignedStart | tv/py/JavRyo_t3.py:427-433 | Starting at the block of a position and skipping the bytes before it gives the key stream from that position |
| CounterMode.CounterNeverOverflows | tv/py/JavRyo_t3.py:429-430 | No counter used for the encrypted part reaches 2^128 |
| CounterMode.KeyStreamIsBlocks | tv/py/JavRyo_t3.py:430-433 | Sixteen bytes of the key stream are the cipher of one counter |
| CounterMode.MaskingLaws | tv/py/JavRyo_t3.py:433-433 | Masking twice restores the data, and masking zeros gives the key stream |
| CounterMode.WholeFileBytes | tv/py/JavRyo_t3.py:388-389 | A file is masked on its first 65536 bytes and plain behind them |
| CounterMode.CounterOfDigest | tv/py/JavRyo_t3.py:429-429 | The first counter is the big-endian number of the digest's first sixteen characters, whatever the others are |
| Payload.EncodeVectors | tv/py/JavRyo_t3.py:275-278 | Base64 of the first test vectors of RFC 4648 |
| Payload.Alphabet | tv/py/JavRyo_t3.py:275-278 | The characters of the 64 sextets are those of RFC 4648 |
| Payload.SameBits | tv/py/JavRyo_t3.py:275-278 | Three bytes and their four sextets are the same 24 bits |
| Payload.DecodesExactly | tv/py/JavRyo_t3.py:383-383 | Text is decoded exactly if it is whole groups of the alphabet of which only the last is padded |
| Payload.DecodeEncode | tv/py/JavRyo_t3.py:383-383 | Decoding base64 restores every byte string |
| Payload.PadRestores | tv/py/JavRyo_t3.py:380-382 | The padding step leaves padded text alone and restores dropped padding, in whole or in part |
| Payload.PadFills | tv/py/JavRyo_t3.py:380-382 | Padding only appends `=`, up to whole groups and no further |
| Payload.QuoteIsPlain | tv/py/JavRyo_t3.py:283-283 | Quoted text holds only unreserved characters and percent signs |
| Payload.Base64Escapes | tv/py/JavRyo_t3.py:283-283 | The three other characters of base64 text are escaped |
| Payload.UnquoteExamples | tv/py/JavRyo_t3.py:378-379 | Escapes in small letters are read, and what is no escape stays |
| Payload.PayloadArrives | tv/py/JavRyo_t3.py:275-283 | The payload arrives whether the framework decoded the query once or not at all |
| Payload.PayloadArrivesUnpadded | tv/py/JavRyo_t3.py:379-383 | It also arrives when padding was lost on the way |
| AbyssProxy.DecryptHead | tv/py/JavRyo_t3.py:427-433 | The block offset and the skipped bytes together mask each byte with the key stream of its place in the file |
| AbyssProxy.DecryptPiece | tv/py/JavRyo_t3.py:423-435 | Each byte of a piece is decrypted where it stands, before and after 65536 |
| AbyssProxy.LocalProxy | tv/py/JavRyo_t3.py:366-447 | Errors are 404 and 500; otherwise the reply says how many bytes it gives and where they stand, and each byte is decrypted by the key stream at its place, or left alone from 65536 on |
| AbyssProxy.RangesFetched | tv/py/JavRyo_t3.py:393-403 | The range fetched for a closed range, an open-ended one, none, and a header that is no range: at most 2 MiB unless both ends are given or the header cannot be read |
| AbyssProxy.ParsesIff | tv/py/JavRyo_t3.py:398-399 | A header is read as a range exactly if it begins with `bytes=`, digits and a dash |
| AbyssProxy.KeyOfLastPart | tv/py/JavRyo_t3.py:390-391 | The key depends only on what follows the last slash of the address |
| AbyssProxy.RangeIsSlice | tv/py/JavRyo_t3.py:393-447 | Every satisfiable range is answered by the same slice of the decrypted file, with the range of those bytes and, as total, the size the payload names |
| AbyssProxy.OpenRangePastEnd | tv/py/JavRyo_t3.py:400-401 | An open-ended range that starts past the size the payload names is fetched with its end before its start |
| AbyssProxy.OpenRangeBeyondRealEnd | tv/py/JavRyo_t3.py:266-273 | When the payload names more than the file has, an open-ended range past the real end is fetched as a valid range past the end |
| AbyssProxy.PastEndOverruns | tv/py/JavRyo_t3.py:411-445 | Any bytes upstream sends for a range that starts past the end are reported as bytes beyond the end, and the answer is never right |
| AbyssProxy.ErrorPageReported | tv/py/JavRyo_t3.py:396-447 | A three-byte file whose one-byte error page for bytes 5 to 9 is reported as `bytes 5-5/3` |
| AbyssProxy.InvalidRangeOverruns | tv/py/JavRyo_t3.py:411-445 | A range fetched with its end before its start is answered with bytes reported beyond the end |
| AbyssProxy.WholeFileReported | tv/py/JavRyo_t3.py:400-445 | An open-ended range from byte 3 of that file is answered with the whole file as `bytes 3-5/3` |
| AbyssProxy.RightExactlyWhen | tv/py/JavRyo_t3.py:396-447 | Against an upstream that honours ranges and ignores invalid ones the answer is right exactly if the start lies in the file and is 0 or not after the end |
| AbyssProxy.ClosedRangeParses | tv/py/JavRyo_t3.py:398-401 | A printed range with both ends is read back as those ends |
| AbyssProxy.EndOfContentRange | tv/py/JavRyo_t3.py:445-445 | A client reads the last byte position back from the reported header |
| AbyssProxy.RangeReadsBack | tv/py/JavRyo_t3.py:445-445 | A client reads both ends and the total back from the reported header |
| AbyssProxy.LengthReadsBack | tv/py/JavRyo_t3.py:443-443 | A client reads the number of bytes back from the length header, which has no leading zeros |
| AbyssProxy.DownloadRebuilds | tv/py/JavRyo_t3.py:393-447 | A client that goes on from the last reported end gets the whole file, in size over 2 MiB rounded up requests |
| AbyssProxy.AddressPlaysFile | tv/py/JavRyo_t3.py:275-283 | From the printed address the decrypted file plays in that many requests |
| PomoStore.Store.AddItem | tv/html/pomo.mom.js:144-152 | Adds an item with a new non-empty address at the end, with its position as index |
| PomoStore.Store.Collect | tv/html/pomo.mom.js:154-199 | Clears the pan and magnet lists and fills them from rows and action links |
| PomoStore.Store.LoadOnline | tv/html/pomo.mom.js:218-229 | Starts a load only when none is under way or done |
| PomoStore.Store.CompleteLoad | tv/html/pomo.mom.js:231-260 | A completion stores its items in the state it finds, whatever page that is of |
| PomoStore.Store.StoreEpisodes | tv/html/pomo.mom.js:282-286 | Replaces the items of earlier loads by the episodes of this one |
| PomoStore.Store.ChangePage | tv/html/pomo.mom.js:1566-1575 | Resets flags and lists but leaves loads in flight |
| PomoRuns.NothingLeftOver | tv/html/pomo.mom.js:1566-1575 | A page change leaves nothing to show and nothing to wait for, and loads in flight as they were |
| PomoStore.Store.OnPlayerClick | tv/html/pomo.mom.js:472-482 | Plays the first online item or defers the play, starting a load if needed |
| PomoStore.Store.OnLinkClick | tv/html/pomo.mom.js:484-507 | Stores the link and plays the item with its address |
| PomoStore.Store.ScanPage | tv/html/pomo.mom.js:763-770 | On a detail page collects, settles the tab and starts loading |
| PomoStore.Store.HandleAll | tv/html/pomo.mom.js:144-507 | The object's handlers, run one after the other on any events, take its fields through exactly the states of the run lemmas |
| PomoRuns.RunKeepsInv | tv/html/pomo.mom.js:144-287 | Over every interleaving all lists hold distinct non-empty addresses, pan and magnet indices are positions plus one, and loading and loaded are never both set |
| PomoRuns.OneLoadPerPage | tv/html/pomo.mom.js:218-229 | Between two page changes at most one load is started, late completions or not |
| PomoRuns.OwnLoadSentExactlyWhen | tv/html/pomo.mom.js:218-253 | After a page change the first scan with a link starts the page's load exactly if no load in flight was answered in between |
| PomoRuns.NoLinkNothingToLoad | tv/html/pomo.mom.js:220-225 | A detail page without a player link has loaded at once |
| PomoRuns.OwnLoadSuppressed | tv/html/pomo.mom.js:218-253 | A run on which page B's load is not sent, nor at any later event before the next page change |
| PomoRuns.ServesOnce | tv/html/pomo.mom.js:251-260 | Only a completion that finds the flag up serves a deferred play, and it takes the flag down |
| PomoRuns.ServedAtMostDeferred | tv/html/pomo.mom.js:251-260 | Over every run no more deferred plays are served than clicks deferred one |
| PomoRuns.DeferredHere | tv/html/pomo.mom.js:472-482 | Over every run a play waits only if the player link was clicked since the last page change |
| PomoRuns.ServedWasAskedHere | tv/html/pomo.mom.js:251-260 | So whatever is served as a deferred play was asked for on the page then shown |
| PomoRuns.ServableExactlyWhen | tv/html/pomo.mom.js:472-482 | A deferred play can still be served on the page exactly if a load is in flight or may yet be sent |
| PomoRuns.StrandedReached | tv/html/pomo.mom.js:472-482 | A run of a load without a list and a click on the player link, after which the deferred play cannot be served |
| PomoRuns.OnlineIndexedExactlyWhen | tv/html/pomo.mom.js:231-286 | A completion leaves the online indices right exactly if it brings no list, or no item that stays stood behind one that is removed |
| PomoPages.CompletionShowsPageExactlyWhen | tv/html/pomo.mom.js:231-287 | For every way a load can end: what is shown then is of the page shown exactly if the load was sent for it or brings nothing new, and, unless episodes replace them, the items before were of that page too |
| PomoPages.ServedPlayOfPageExactlyWhen | tv/html/pomo.mom.js:251-260 | A served deferred play plays the first online item, and exactly when that is of the page shown |
| PomoPages.TimelyRunShowsPage | tv/html/pomo.mom.js:144-287 | Over every run on which each load ends before its page is left, the online items are numbered in order and all of the page shown |
| PomoPages.EpisodesKeepText | tv/html/pomo.mom.js:282-287 | Episodes keep their addresses and titles and are marked with the page they were found on |
| PomoPages.LateEpisodeShown | tv/html/pomo.mom.js:231-260 | A run on which an episode of page A is shown on page B |
| PomoPages.LateEpisodeStays | tv/html/pomo.mom.js:231-276 | The load of page B then ends without a list, and page A's episode is still shown |
| PomoPages.LateFailureShown | tv/html/pomo.mom.js:241-250 | A late failure shows the entry for page A on page B |
| PomoPages.LateEpisodePlayed | tv/html/pomo.mom.js:251-260 | A click on page B is served by an episode of page A |
| PomoPages.LateEpisodeBreaksIndices | tv/html/pomo.mom.js:282-286 | The same run continued ends with two online items of index 2 |
| PomoRuns.LinkClickPlays | tv/html/pomo.mom.js:495-507 | A click on a link plays exactly its address, from a list in which no other item has it |
| PomoRuns.ScanCollects | tv/html/pomo.mom.js:154-199 | After a scan the pan and magnet lists hold exactly the addresses that rows and actions link to, player links excepted, and the online list also those of its media rows |
| PomoRuns.CollectedInOrder | tv/html/pomo.mom.js:154-199 | They hold them in the order of the rows and then the actions |
| PomoRuns.AddedAtEnd | tv/html/pomo.mom.js:144-152 | A new address comes at the end of its list, numbered by its place |
| PomoRuns.ActiveTabShowsItems | tv/html/pomo.mom.js:369-374 | The settled tab shows something whenever any list does, and a tab is left only for the first that does |
| PomoRuns.TabsSettle | tv/html/pomo.mom.js:251-260 | A scan and a completed load settle the tab |
| PomoRuns.PlayerClickPlays | tv/html/pomo.mom.js:472-482 | A click on the player link plays the first online item, or defers the play and loads if nothing was loaded |
| PomoRuns.RowClickPlays | tv/html/pomo.mom.js:334-352 | A click on a row plays its address |

## Left out

- HTTP, sessions, headers, retries and proxies; the answers of servers are parameters.
- The block cipher, MD5, gzip and JSON decoding: the cipher, the digest and the JSON codec are parameters, and the brace scanner's result is the text handed to the decoder.
- HTML scraping and the regular expressions that read player scripts; a signature plan is given as a list of steps, a renderer parser as a function, and the kind of a link as part of the event.
- CursorPages.PageCache.Paged: the backend is a function of request key and cursor, so an answer that differs on a retry is not modelled here (it is in `MediaFeed`), nor a fetch that raises.
- MediaFeed.PoolView: the configured page size is a natural number; negative sizes and Python's negative slices are not modelled.
- MediaFeed.FeedCache: one object per user; the dictionary of users and the empty user id, which is answered with an empty page, are not modelled.
- MediaFeed.Card: the cover of a card, the tweet cache and tweets that are not in it are not modelled; a card without identifier or picture has the empty key.
- MediaCards.SelectedOf: only decimal numbers are read, while `int` also takes signs, blanks and underscores; printed identifiers have none.
- SearchSession.CacheKey: the normalisation of the query is a parameter; the theorem speaks about the query the session was started with.
- SearchSession.Client: one text stands for the client context with its name and version; the referer a continuation sends, which names the query, is left out.
- SearchSession.Session.FollowToken: a request fails before anything is stored; an answer whose videos are stored but whose token cannot be read, which would leave the old token, is not modelled.
- VideoScan.Json: recursion depth limits of the interpreter are not modelled.
- Text.LowerChar: lower case of ASCII letters only; the names the sources look for contain no letter that another character lowers to, except the Kelvin sign, which `CookieHeader.LowersTo` includes.
- AbyssProxy.RightExactlyWhen: upstream is assumed to honour ranges, and to ignore one whose end lies before its start as section 14.1.1 of RFC 9110 asks; nothing is assumed of its answer to a range past the end.
- Text.LeadingDigits: only ASCII digits, while the pattern `\d` also takes other decimal digits.
- Payload.Unquote: escapes of bytes from 128 on, which stand for UTF-8 sequences, are kept as they are; base64 text has none.
- Payload.Decode: refuses characters outside the alphabet, which the library skips.
- PomoStore.Store.PlayItem: resolving the address of an episode, the busy marks and rendering are not modelled.
- Titles, badges and subtitles of items, the DOM enhancement, styles and keyboard handling of the page extension.
- Tracks.ChooseTracks: the choice of an audio format and the manifest built from the tracks are not modelled.
- Android dialogs, danmaku, waiting times and logging.
