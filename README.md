# Reddit keyword monitor — a verified model

`reddit_monitor.py` watches the Reddit submission stream and e-mails an alert for every new
post whose title or body contains one of the keywords listed in `keywords.txt`. A file
watcher reloads that list whenever the file changes. This project models the three pieces of
logic under the network and e-mail plumbing, and proves what they guarantee:

- **Keyword loading** (`load_keywords`). The file's lines are trimmed. Blank lines and lines
  whose raw form starts with `#` are dropped. The parsed list and the recorded
  modification time are swapped in together, but only when the timestamp differs from the
  recorded one *and* the parsed list differs from the current one. A touched file whose
  keywords did not change therefore leaves the recorded timestamp stale, exactly as in the
  program. A failing stat or read changes nothing. Module `Keywords`: the pure parse
  `ParseLines`/`ParseKeywordFile`, the transition `ReloadStep`, and the class `KeywordStore`
  holding the two globals, with its `Reload` method.
- **The seen-post cache** (`seen_posts`, a `deque(maxlen=10_000)`). An id is looked up by a
  linear scan, and an unseen id is appended at the back, which evicts the front id of a full
  deque. Module `SeenCache`: the transition `CheckAndAddStep`, its fold over many ids
  `RunIds`, and the class `SeenPostCache` with the scanning method `CheckAndAdd`.
- **Matching and alerting** (the body of `monitor_reddit`). The content is
  `lower(title + "\n\n" + selftext)`. A snapshot of the keywords is taken, and the keywords
  whose lower-case form occurs in the content are collected in order, duplicates kept. An
  alert is raised exactly when that list is non-empty. Its subject is
  `"Reddit Alert: "` followed by the matches joined with `", "`, and an absent author shows
  as `Deleted`. Module `Monitor`: `MatchedKeywords` and the loop `MatchKeywords`, `AlertFor`,
  the event transition `Step` and its fold `Run`, and the class `Monitor` with `ProcessPost`,
  `HandleEvent` and the stream loop `Consume`.

Module `Text` gives the string operations these rely on: `str.strip`, `str.lower`, the
substring test, `str.join` and `readlines`. `Trim` and `Lower` are restricted to ASCII; the
substring test and `join` are exact; `SplitLines` splits at `\n` only. Module `Wrappers`
holds `Option`.

Each lock of the program (`keywords_lock`, `seen_posts_lock`) guards one operation, so every
locked block is one atomic step here. A run of the monitor is a sequence of events: a
delivered post, a stream error (caught, logged and retried), or a keyword-file notification.
Each event carries the values the outside world supplies. A post is its id, title, body,
subreddit, optional author and URL. A file probe is either a failed stat, or a modification
time together with the file's text (`None` when the read fails).

Every class method is proved against a pure function of the old state: `Reload` against
`ReloadStep`, `CheckAndAdd` against `CheckAndAddStep`, `ProcessPost`/`HandleEvent` against
`Step`, and `Consume` against `Run`. The lemmas state the program's guarantees about those
functions.

The comment test looks at the untrimmed line (reddit_monitor.py:47), so an indented `  #x`
is kept as the keyword `#x` (`Keywords.IndentedHashIsKeyword`).

## Model

| member | source | states |
|---|---|---|
| Text.Trim | reddit_monitor.py:46 | `strip()` leaves no whitespace at either end of its result |
| Text.TrimStartDropsSpace | reddit_monitor.py:46 | what `strip()` removes at the front is whitespace only |
| Text.TrimEndDropsSpace | reddit_monitor.py:46 | what `strip()` removes at the back is whitespace only |
| Text.TrimIsInfix | reddit_monitor.py:46-47 | the stripped line is a contiguous piece of the line with only whitespace around it, and is empty exactly when the line is all whitespace (the blank-line test) |
| Text.TrimIdempotent | reddit_monitor.py:46 | stripping twice is stripping once |
| Text.LowerChar | reddit_monitor.py:111 | one character is lower-cased: `A`-`Z` map to `a`-`z`, every other character is kept |
| Text.Lower | reddit_monitor.py:111 | `lower()` keeps the length and lower-cases position by position |
| Text.LowerAppend | reddit_monitor.py:111 | lower-casing the concatenation equals concatenating the lower-cased parts |
| Text.LowerIdempotent | reddit_monitor.py:120 | a lower-cased string is its own lower-case form, so lower-casing twice is lower-casing once |
| Text.ContainsIffOccurs | reddit_monitor.py:120 | `needle in hay` holds exactly when the needle occurs at some index of the haystack |
| Text.ContainsInPrefix | reddit_monitor.py:111-120 | a keyword found in the title is found in the whole content |
| Text.ContainsInSuffix | reddit_monitor.py:111-120 | a keyword found in the body is found in the whole content |
| Text.AbsentWithoutLetter | reddit_monitor.py:120 | a needle with a character the haystack lacks is not in it |
| Text.Contains | reddit_monitor.py:120 | the substring test `needle in hay`: the empty needle is in every string, and a needle is found only in a haystack at least as long; `Text.ContainsIffOccurs` states exactly when it holds |
| Text.Join | reddit_monitor.py:125 | `sep.join(parts)` starts with the first part; `Text.JoinConcat` and `Text.JoinLength` state where the separators go |
| Text.JoinConcat | reddit_monitor.py:125 | `", ".join` puts exactly one separator between neighbouring parts when the list is extended |
| Text.JoinLength | reddit_monitor.py:125 | the joined subject part has the total length of the parts plus one separator per gap |
| Text.FirstLineLength | reddit_monitor.py:46 | a line ends after its first line feed, or at the end of the text |
| Text.SplitLines | reddit_monitor.py:46 | `readlines()` returns at most one line per character of the text; `Text.SplitLinesShape` and `Text.SplitLinesRoundTrip` state what the lines are |
| Text.SplitLinesAreLines | reddit_monitor.py:46 | every line `readlines()` returns is non-empty with no line feed before its last character |
| Text.SplitLinesEndInFeed | reddit_monitor.py:46 | every line `readlines()` returns except the last ends with a line feed |
| Text.SplitLinesShape | reddit_monitor.py:46 | every line `readlines()` returns is non-empty with no inner line feed, and each but the last ends with one |
| Text.SplitLinesRoundTrip | reddit_monitor.py:46 | the returned lines put back together are the file's text |
| Keywords.KeepLine | reddit_monitor.py:47 | a kept line strips to a keyword (non-empty, no surrounding whitespace), and its raw form does not start with `#` |
| Keywords.ParseLines | reddit_monitor.py:46-47 | the parse yields at most one keyword per line |
| Keywords.ParseKeywordFile | reddit_monitor.py:45-47 | a file yields at most one keyword per character, and the empty file none |
| Keywords.ParsedAreKeywords | reddit_monitor.py:46-47 | every parsed keyword is non-empty and has no surrounding whitespace |
| Keywords.ParseLinesConcat | reddit_monitor.py:46-47 | the keywords of two blocks of lines are those of the first block followed by those of the second (file order is kept) |
| Keywords.ParseOneLine | reddit_monitor.py:46-47 | one line contributes its stripped form exactly when it is not blank and does not start with `#`, and nothing otherwise |
| Keywords.ParseLinesMembership | reddit_monitor.py:46-47 | a string is a parsed keyword exactly when some kept line strips to it |
| Keywords.ParseLinesCount | reddit_monitor.py:46-47 | there is exactly one keyword per kept line |
| Keywords.IndentedLineTrims | reddit_monitor.py:46 | two spaces of indentation and the line feed are stripped from a keyword line, leaving the keyword |
| Keywords.IndentedKeywordKept | reddit_monitor.py:46-47 | an indented keyword line is kept even when the keyword starts with `#`, because the comment test looks at the raw line |
| Keywords.IndentedHashIsKeyword | reddit_monitor.py:47 | the comment test looks at the raw line: the file `"  #x\n"` yields the keyword `#x` |
| Keywords.CommentsAndBlanksDropped | reddit_monitor.py:46-47 | any comment line followed by any whitespace-only line yields nothing, and a line that is already a keyword is kept unchanged |
| Keywords.ReloadStep | reddit_monitor.py:41-56 | one call of `load_keywords`: the state either stays as it is, or both `keywords` and `last_modified` change, and only after a successful stat |
| Keywords.ReloadFailureKeepsState | reddit_monitor.py:41-56 | a failing stat or read leaves `keywords` and `last_modified` as they were |
| Keywords.ReloadSameStampKeepsState | reddit_monitor.py:42-43 | a timestamp equal to `last_modified` skips the reload whatever the file holds |
| Keywords.ReloadSwapsTogether | reddit_monitor.py:50-52 | `keywords` and `last_modified` change together or not at all, and a change installs the parse of the file just read and its timestamp |
| Keywords.ReloadTouchedFileKeepsStaleStamp | reddit_monitor.py:50-52 | a new timestamp with an unchanged keyword list updates nothing, not even `last_modified` |
| Keywords.ReloadReadYieldsFileKeywords | reddit_monitor.py:42-52 | after a reload that reads the file, the keywords are exactly the file's keywords |
| Keywords.ReloadIdempotent | reddit_monitor.py:42-52 | reloading twice from the same file state has the effect of reloading once |
| Keywords.ReloadKeepsKeywordsWellFormed | reddit_monitor.py:46-51 | a reload keeps the store holding only non-empty, stripped keywords |
| Keywords.KeywordStore.constructor | reddit_monitor.py:23-25 | the store starts with no keywords and timestamp 0 |
| Keywords.KeywordStore.Reload | reddit_monitor.py:38-56 | the new `keywords`/`last_modified` are `ReloadStep` of the old ones; the whole file is parsed before the single assignment |
| Keywords.KeywordStore.Snapshot | reddit_monitor.py:114-115 | the snapshot is the current keyword list, as a value later reloads cannot alter |
| SeenCache.KeepLast | reddit_monitor.py:28 | the bounded deque keeps the last `maxlen` elements: all of them when there are fewer, otherwise exactly `maxlen` |
| SeenCache.KeepLastAppend | reddit_monitor.py:28 | evicting before further appends ends in the same deque as evicting once at the end |
| SeenCache.CheckAndAddStep | reddit_monitor.py:106-109 | the result says whether the id was present; a present id leaves the deque unchanged; an absent id is appended at the back; a full deque loses exactly its front id; the size never exceeds the capacity |
| SeenCache.CheckAndAddKeepsDistinct | reddit_monitor.py:106-109 | the deque never holds the same id twice |
| SeenCache.RunIds | reddit_monitor.py:102-109 | feeding ids through the cache keeps it within capacity and inserts at most one id per delivery |
| SeenCache.StaysWithinWindow | reddit_monitor.py:106-109 | an id stays in the cache while fewer than `capacity` ids are inserted after it |
| SeenCache.RedeliveryIsSkipped | reddit_monitor.py:106-109 | a second delivery of an id, with fewer than `capacity` insertions since its first, is reported as seen |
| SeenCache.ArriveFreshSuffix | reddit_monitor.py:106-109 | ids new to a deque stay new once its oldest ids are evicted |
| SeenCache.DistinctArriveFresh | reddit_monitor.py:106-109 | pairwise distinct ids that are not in the deque are all new when they arrive |
| SeenCache.FreshIdsFillInOrder | reddit_monitor.py:106-109 | new ids are all inserted, and the deque ends up holding the most recent `capacity` of them in arrival order |
| SeenCache.OldestEvictedAfterCapacityPlusOne | reddit_monitor.py:20-28 | after `capacity + 1` distinct ids reach an empty cache, the first of them is evicted, so its next delivery counts as new |
| SeenCache.SeenPostCache.constructor | reddit_monitor.py:28 | a new cache is empty and has the given capacity |
| SeenCache.SeenPostCache.CheckAndAdd | reddit_monitor.py:106-109 | the linear `in` scan and the append with eviction compute `CheckAndAddStep`, and the cache stays within capacity and duplicate-free |
| Monitor.Content | reddit_monitor.py:111 | the searched text is as long as title, the two line feeds and body together; `Monitor.MatchIgnoresCase` states what it makes match |
| Monitor.KeywordMatches | reddit_monitor.py:120 | `keyword.lower() in content`: the empty keyword always matches, and a keyword longer than the content never does |
| Monitor.MatchedKeywords | reddit_monitor.py:118-121 | at most one match per snapshot keyword |
| Monitor.MatchedConcat | reddit_monitor.py:118-121 | matching keeps the snapshot's order: the matches of two snapshot blocks are those of the first followed by those of the second |
| Monitor.MatchedMultiplicity | reddit_monitor.py:118-121 | each keyword is matched as many times as it occurs in the snapshot when its lower-case form is in the content, and never otherwise |
| Monitor.MatchedMembership | reddit_monitor.py:118-121 | a keyword is matched exactly when it is in the snapshot and its lower-case form is in the content |
| Monitor.NothingMatchedIff | reddit_monitor.py:118-123 | nothing is matched exactly when no snapshot keyword's lower-case form is in the content |
| Monitor.MatchIgnoresCase | reddit_monitor.py:111-120 | a keyword occurring in the title or the body, in any mix of cases, matches |
| Monitor.KeywordWithAbsentLetter | reddit_monitor.py:111-120 | a keyword one of whose letters lower-cases to something no character of the title and body lower-cases to does not match |
| Monitor.GiveawayExample | reddit_monitor.py:111-121 | any post titled "Free V-Bucks giveaway" with an empty body matches `["giveaway"]` out of `["giveaway", "scam"]` |
| Monitor.MatchKeywords | reddit_monitor.py:118-121 | the `for`/`append` loop computes exactly `MatchedKeywords` |
| Monitor.Subject | reddit_monitor.py:125-135 | the subject starts with `"Reddit Alert: "` and is followed by at least the first match; `Monitor.SubjectListsMatches` states its whole shape |
| Monitor.SubjectListsMatches | reddit_monitor.py:125-135 | the subject is `"Reddit Alert: "` and the matches separated by `", "`, in order |
| Monitor.AuthorName | reddit_monitor.py:131 | the author's name when there is one, and `Deleted` when the post has no author |
| Monitor.AlertFor | reddit_monitor.py:123-137 | an alert carries a non-empty matched list of at most one entry per snapshot keyword, and the post's title, subreddit and URL; `Monitor.AlertForSpec` states exactly when it exists |
| Monitor.AlertForSpec | reddit_monitor.py:123-137 | an alert exists exactly when some keyword matches; it carries the matched list, the subject built from it, `Deleted` for an absent author, and the post's title, subreddit and URL |
| Monitor.Step | reddit_monitor.py:102-137 | one event never takes the cache beyond capacity |
| Monitor.Run | reddit_monitor.py:99-141 | a whole run never takes the cache beyond capacity |
| Monitor.SeenFollowsDeliveries | reddit_monitor.py:99-141 | the cache evolves only with the delivered ids: errors and reloads never touch it |
| Monitor.StoreFollowsReloads | reddit_monitor.py:99-141 | the keyword store evolves only with the keyword-file reloads |
| Monitor.StreamErrorsChangeNothing | reddit_monitor.py:139-141 | a run with stream errors raises the same alerts and ends in the same state as the run without them: the cache survives every retry |
| Monitor.AlertOnlyForUnseen | reddit_monitor.py:106-123 | an alert is raised only for an id not yet in the cache, and a seen id changes nothing |
| Monitor.NoSecondAlert | reddit_monitor.py:106-137 | a post delivered again, with fewer than `MAX_SEEN_POSTS` new ids in between, raises no second alert whatever errors and reloads happen meanwhile |
| Monitor.Monitor.constructor | reddit_monitor.py:92-93 | start-up: an empty cache of `MAX_SEEN_POSTS` ids and the store after the initial load, holding only parsed keywords |
| Monitor.Monitor.ProcessPost | reddit_monitor.py:103-137 | check-and-add, snapshot, match and alert compute `Step` for the delivered post |
| Monitor.Monitor.OnKeywordFileModified | reddit_monitor.py:60-62 | a file notification reloads the keywords and leaves the cache alone; the store keeps holding only non-empty, stripped keywords |
| Monitor.Monitor.HandleEvent | reddit_monitor.py:99-141 | one event of any kind, handled atomically, computes `Step` |
| Monitor.Monitor.Consume | reddit_monitor.py:99-141 | the stream loop handles events in order and raises the alerts of `Run`, in order |

## Left out

- The Reddit client and `subreddit.stream.submissions` (network): posts are inputs of the model.
- Stream errors: a stream error is an event that changes no state. The exception types, the
  log line and `time.sleep(CHECK_INTERVAL)` before reopening the stream are not modelled (timing and liveness).
- SendGrid delivery and the HTML body of the e-mail (a foreign API and display text): an alert
  carries the values the body shows and the subject. A failed send is logged and ignored by
  the program, so it has no effect on the model's state.
- The watchdog observer, its path filter `event.src_path.endswith(KEYWORDS_FILE)`, and its
  start, stop and join (file-system notification and thread lifecycle): a notification for
  the keyword file is an event carrying a file probe.
- Threads and `threading.Lock`: each locked block is one atomic step, and events are handled
  one at a time.
- `os.path.getmtime` returns a float; the model uses a `real` compared only for equality,
  with the initial integer `0` as `0.0`.
- `print` output, `load_dotenv` and the environment variables (I/O and configuration).
- Text.Trim, Text.Lower: ASCII only. `strip()` removes the ASCII characters for which
  Python's `isspace()` holds (tab to carriage return, 0x1C-0x1F, space). `lower()` maps only
  `A`-`Z`. Unicode case mapping and Unicode whitespace are not modelled.
- Text.SplitLines: the file contents are given as already decoded text and split after every
  line feed. Decoding errors count as a failed read. Universal-newline translation of `\r`
  and `\r\n` done by `open` is not modelled.
- An exception raised while a post is handled, after its id was recorded, is not modelled: in
  the model every handled post runs to completion.
