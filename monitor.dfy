/**
 * The body of `monitor_reddit`: for each delivered post, the seen check, the keyword
 * snapshot, the case-insensitive match and the alert; stream errors and keyword-file
 * notifications interleaved with the posts.
 */
module Monitor {
  import opened Wrappers
  import opened Text
  import opened Keywords
  import opened SeenCache

  /** The fields of a submission the monitor reads; an absent author is `None`. */
  datatype Post = Post(id: string, title: string, selftext: string, subreddit: string, author: Option<string>, url: string)

  /** The text searched for keywords: title, a blank line and body, lower-cased. */
  function Content(post: Post): (c: string)
    ensures |c| == |post.title| + 2 + |post.selftext|
  {
    Lower(post.title + "\n\n" + post.selftext)
  }

  /** `keyword.lower() in content`. */
  predicate KeywordMatches(keyword: string, content: string)
    ensures KeywordMatches(keyword, content) ==> |keyword| <= |content|
    ensures keyword == [] ==> KeywordMatches(keyword, content)
  {
    Contains(Lower(keyword), content)
  }

  /** The keywords of the snapshot that match, in snapshot order and with duplicates. */
  function MatchedKeywords(snapshot: seq<string>, content: string): (m: seq<string>)
    ensures |m| <= |snapshot|
  {
    if snapshot == [] then []
    else (if KeywordMatches(snapshot[0], content) then [snapshot[0]] else []) + MatchedKeywords(snapshot[1..], content)
  }

  /** Matching distributes over the snapshot: it keeps the relative order of the keywords. */
  lemma {:induction false} MatchedConcat(a: seq<string>, b: seq<string>, content: string)
    ensures MatchedKeywords(a + b, content) == MatchedKeywords(a, content) + MatchedKeywords(b, content)
  {
    if a == [] {
      assert a + b == b;
    } else {
      var head := if KeywordMatches(a[0], content) then [a[0]] else [];
      assert (a + b)[0] == a[0] && (a + b)[1..] == a[1..] + b;
      assert MatchedKeywords(a + b, content) == head + MatchedKeywords(a[1..] + b, content);
      MatchedConcat(a[1..], b, content);
      assert MatchedKeywords(a, content) == head + MatchedKeywords(a[1..], content);
    }
  }

  /** Each keyword occurs in the matched list as often as in the snapshot when it
      matches, and not at all otherwise. */
  lemma {:induction false} MatchedMultiplicity(snapshot: seq<string>, content: string, k: string)
    ensures multiset(MatchedKeywords(snapshot, content))[k] ==
      if KeywordMatches(k, content) then multiset(snapshot)[k] else 0
  {
    if snapshot != [] {
      var head := if KeywordMatches(snapshot[0], content) then [snapshot[0]] else [];
      assert MatchedKeywords(snapshot, content) == head + MatchedKeywords(snapshot[1..], content);
      MatchedMultiplicity(snapshot[1..], content, k);
      assert snapshot == [snapshot[0]] + snapshot[1..];
      assert multiset(snapshot) == multiset([snapshot[0]]) + multiset(snapshot[1..]);
    }
  }

  /** A keyword is matched exactly when it is in the snapshot and its lower-case form
      occurs in the content. */
  lemma MatchedMembership(snapshot: seq<string>, content: string, k: string)
    ensures k in MatchedKeywords(snapshot, content) <==> k in snapshot && KeywordMatches(k, content)
  {
    MatchedMultiplicity(snapshot, content, k);
  }

  /** Nothing is matched exactly when no keyword of the snapshot occurs in the content. */
  lemma NothingMatchedIff(snapshot: seq<string>, content: string)
    ensures MatchedKeywords(snapshot, content) == [] <==> forall k :: k in snapshot ==> !KeywordMatches(k, content)
  {
    if MatchedKeywords(snapshot, content) == [] {
      forall k | k in snapshot
        ensures !KeywordMatches(k, content)
      {
        MatchedMembership(snapshot, content, k);
      }
    }
  }

  /** Matching ignores case on both sides: a keyword occurring in the title or in the body,
      in any mix of cases, matches. */
  lemma MatchIgnoresCase(post: Post, keyword: string)
    requires Contains(Lower(keyword), Lower(post.title)) || Contains(Lower(keyword), Lower(post.selftext))
    ensures KeywordMatches(keyword, Content(post))
    ensures KeywordMatches(Lower(keyword), Content(post))
  {
    LowerAppend(post.title, "\n\n" + post.selftext);
    LowerAppend("\n\n", post.selftext);
    assert post.title + "\n\n" + post.selftext == post.title + ("\n\n" + post.selftext);
    if Contains(Lower(keyword), Lower(post.title)) {
      ContainsInPrefix(Lower(keyword), Lower(post.title), Lower("\n\n" + post.selftext));
    } else {
      ContainsInSuffix(Lower(keyword), Lower("\n\n"), Lower(post.selftext));
      ContainsInSuffix(Lower(keyword), Lower(post.title), Lower("\n\n") + Lower(post.selftext));
    }
    LowerIdempotent(keyword);
  }

  /** A lower-case keyword is its own lower-case form. */
  lemma LowerOfLowercase(k: string)
    requires forall j :: 0 <= j < |k| ==> !IsUpper(k[j])
    ensures Lower(k) == k
  {
  }

  /** Matching a two-keyword snapshot tests each keyword in turn. */
  lemma MatchedPair(a: string, b: string, content: string)
    ensures MatchedKeywords([a, b], content) ==
      (if KeywordMatches(a, content) then [a] else []) + (if KeywordMatches(b, content) then [b] else [])
  {
    assert [a, b] == [a] + [b];
    MatchedConcat([a], [b], content);
    assert [a][1..] == [] && [b][1..] == [];
  }

  /** A lower-case keyword that ends the title matches. */
  lemma KeywordEndingTitle(post: Post, head: string, k: string)
    requires Lower(k) == k && post.title == head + k
    ensures KeywordMatches(k, Content(post))
  {
    LowerAppend(head, k);
    Contains1(k);
    ContainsInSuffix(k, Lower(head), k);
    MatchIgnoresCase(post, k);
  }

  /** No character of `s` lower-cases to `c`. */
  predicate LacksLetter(s: string, c: char) {
    forall i :: 0 <= i < |s| ==> LowerChar(s[i]) != c
  }

  /** A keyword does not match a post whose title and body have no character that
      lower-cases to one of the keyword's letters. */
  lemma KeywordWithAbsentLetter(post: Post, k: string, j: nat)
    requires j < |k| && LacksLetter(post.title + "\n\n" + post.selftext, LowerChar(k[j]))
    ensures !KeywordMatches(k, Content(post))
  {
    var c := Content(post);
    assert forall i :: 0 <= i < |c| ==> c[i] != Lower(k)[j];
    AbsentWithoutLetter(Lower(k), c, j);
  }

  lemma GiveawayTitleSplits()
    ensures "Free V-Bucks giveaway" == "Free V-Bucks " + "giveaway"
  {
  }

  lemma GiveawayTitleLacksM()
    ensures LacksLetter("Free V-Bucks giveaway" + "\n\n" + "", 'm')
  {
  }

  lemma GiveawayIsLowercase()
    ensures Lower("giveaway") == "giveaway"
  {
    LowerOfLowercase("giveaway");
  }

  /** The post titled "Free V-Bucks giveaway" with an empty body matches "giveaway" but
      not "scam". */
  lemma GiveawayExample(post: Post)
    requires post.title == "Free V-Bucks giveaway" && post.selftext == ""
    ensures MatchedKeywords(["giveaway", "scam"], Content(post)) == ["giveaway"]
  {
    GiveawayTitleSplits();
    GiveawayTitleLacksM();
    GiveawayIsLowercase();
    KeywordEndingTitle(post, "Free V-Bucks ", "giveaway");
    KeywordWithAbsentLetter(post, "scam", 3);
    MatchedPair("giveaway", "scam", Content(post));
  }

  /** The matching loop: `matched_keywords.append(keyword)` for each keyword of the snapshot
      whose lower-case form is in the content. */
  method MatchKeywords(snapshot: seq<string>, content: string) returns (matched: seq<string>)
    ensures matched == MatchedKeywords(snapshot, content)
  {
    matched := [];
    var i := 0;
    while i < |snapshot|
      invariant 0 <= i <= |snapshot|
      invariant matched == MatchedKeywords(snapshot[..i], content)
    {
      var keyword := snapshot[i];
      if Contains(Lower(keyword), content) {
        matched := matched + [keyword];
      }
      MatchedConcat(snapshot[..i], [keyword], content);
      assert snapshot[..i + 1] == snapshot[..i] + [keyword];
      assert MatchedKeywords([keyword], content) == if KeywordMatches(keyword, content) then [keyword] else [];
      i := i + 1;
    }
    assert snapshot[..i] == snapshot;
  }

  /** The e-mail of one match; the HTML body is not modelled, only the values it shows. */
  datatype Alert = Alert(subject: string, matched: seq<string>, title: string, subreddit: string, author: string, url: string)

  const SubjectPrefix := "Reddit Alert: "

  /** `f"Reddit Alert: {', '.join(matched_keywords)}"`. */
  function Subject(matched: seq<string>): (s: string)
    ensures |SubjectPrefix| <= |s| && s[..|SubjectPrefix|] == SubjectPrefix
    ensures matched != [] ==> |s| >= |SubjectPrefix| + |matched[0]|
  {
    SubjectPrefix + Join(", ", matched)
  }

  /** The subject lists the matched keywords in order, separated by commas. */
  lemma SubjectListsMatches(matched: seq<string>, keyword: string)
    ensures Subject([keyword]) == SubjectPrefix + keyword
    ensures matched != [] ==> Subject(matched + [keyword]) == Subject(matched) + ", " + keyword
  {
    if matched != [] {
      JoinConcat(", ", matched, [keyword]);
    }
  }

  /** `submission.author.name if submission.author else 'Deleted'`. */
  function AuthorName(author: Option<string>): (name: string)
    ensures author.None? ==> name == "Deleted"
    ensures author.Some? ==> name == author.value
  {
    match author
    case None => "Deleted"
    case Some(name) => name
  }

  /** The alert for a post that passed the seen check, built from the matches. */
  function AlertFor(post: Post, snapshot: seq<string>): (r: Option<Alert>)
    ensures r.Some? ==> r.value.matched != [] && |r.value.matched| <= |snapshot|
    ensures r.Some? ==> r.value.title == post.title && r.value.subreddit == post.subreddit && r.value.url == post.url
  {
    var matched := MatchedKeywords(snapshot, Content(post));
    if matched == [] then None
    else Some(Alert(Subject(matched), matched, post.title, post.subreddit, AuthorName(post.author), post.url))
  }

  /** An alert is raised exactly when some keyword of the snapshot matches; it carries the
      matched list, the subject built from it, and "Deleted" for an absent author. */
  lemma AlertForSpec(post: Post, snapshot: seq<string>)
    ensures var r := AlertFor(post, snapshot);
      (r.Some? <==> exists k :: k in snapshot && KeywordMatches(k, Content(post))) &&
      (r.Some? ==> r.value.matched == MatchedKeywords(snapshot, Content(post)) && r.value.matched != [] &&
                   r.value.subject == Subject(r.value.matched) &&
                   r.value.author == (if post.author.None? then "Deleted" else post.author.value) &&
                   r.value.title == post.title && r.value.subreddit == post.subreddit && r.value.url == post.url)
  {
    NothingMatchedIff(snapshot, Content(post));
  }

  /** The two pieces of shared state: the keyword store and the seen-post deque. */
  datatype MonitorState = MonitorState(store: StoreState, seen: seq<string>)

  /** What can happen while the monitor runs: the stream yields a post, the stream raises
      (caught, logged, followed by a pause and a reopened stream), or the watcher reports a
      change of the keyword file. */
  datatype Event = Delivered(post: Post) | StreamError | KeywordFileModified(probe: FileProbe)

  /** One event handled atomically: the alert it raises, if any, and the new state. */
  function Step(s: MonitorState, capacity: nat, e: Event): (r: (MonitorState, Option<Alert>))
    ensures |s.seen| <= capacity ==> |r.0.seen| <= capacity
  {
    match e
    case Delivered(post) =>
      var check := CheckAndAddStep(s.seen, capacity, post.id);
      if check.0 then (s, None)
      else (MonitorState(s.store, check.1), AlertFor(post, s.store.keywords))
    case StreamError => (s, None)
    case KeywordFileModified(probe) => (MonitorState(ReloadStep(s.store, probe), s.seen), None)
  }

  function OptionToSeq(a: Option<Alert>): seq<Alert>
  {
    match a
    case None => []
    case Some(alert) => [alert]
  }

  /** A run that resumes after the alerts already raised. */
  function Resume(earlier: seq<Alert>, r: (MonitorState, seq<Alert>)): (MonitorState, seq<Alert>)
  {
    (r.0, earlier + r.1)
  }

  /** Handling a sequence of events in order: the final state and the alerts, in order. */
  function Run(s: MonitorState, capacity: nat, events: seq<Event>): (r: (MonitorState, seq<Alert>))
    ensures |s.seen| <= capacity ==> |r.0.seen| <= capacity
    decreases |events|
  {
    if events == [] then (s, [])
    else
      var step := Step(s, capacity, events[0]);
      var rest := Run(step.0, capacity, events[1..]);
      (rest.0, OptionToSeq(step.1) + rest.1)
  }

  /** The ids of the delivered posts, in delivery order. */
  function DeliveredIds(events: seq<Event>): seq<string>
  {
    if events == [] then []
    else (if events[0].Delivered? then [events[0].post.id] else []) + DeliveredIds(events[1..])
  }

  /** The keyword-file probes, in order. */
  function Probes(events: seq<Event>): seq<FileProbe>
  {
    if events == [] then []
    else (if events[0].KeywordFileModified? then [events[0].probe] else []) + Probes(events[1..])
  }

  function ReloadAll(s: StoreState, probes: seq<FileProbe>): StoreState
    decreases |probes|
  {
    if probes == [] then s else ReloadAll(ReloadStep(s, probes[0]), probes[1..])
  }

  function WithoutErrors(events: seq<Event>): seq<Event>
  {
    if events == [] then []
    else (if events[0].StreamError? then [] else [events[0]]) + WithoutErrors(events[1..])
  }

  /** What one event does to each half of the state. */
  lemma StepParts(s: MonitorState, capacity: nat, e: Event)
    ensures Step(s, capacity, e).0.seen ==
      if e.Delivered? then CheckAndAddStep(s.seen, capacity, e.post.id).1 else s.seen
    ensures Step(s, capacity, e).0.store ==
      if e.KeywordFileModified? then ReloadStep(s.store, e.probe) else s.store
    ensures e.StreamError? ==> Step(s, capacity, e) == (s, None)
  {
  }

  /** The first event of a run is handled first and the rest of the run follows it. */
  lemma RunFirst(s: MonitorState, capacity: nat, events: seq<Event>)
    requires events != []
    ensures var step := Step(s, capacity, events[0]);
      var rest := Run(step.0, capacity, events[1..]);
      Run(s, capacity, events) == (rest.0, OptionToSeq(step.1) + rest.1)
  {
  }

  /** Handling the next event of a run moves its alert to the alerts already raised. */
  lemma ResumeStep(goal: (MonitorState, seq<Alert>), earlier: seq<Alert>, before: MonitorState, capacity: nat,
                   events: seq<Event>, i: nat, after: MonitorState, alert: Option<Alert>)
    requires i < |events|
    requires goal == Resume(earlier, Run(before, capacity, events[i..]))
    requires (after, alert) == Step(before, capacity, events[i])
    ensures goal == Resume(earlier + OptionToSeq(alert), Run(after, capacity, events[i + 1..]))
  {
    assert events[i..][0] == events[i] && events[i..][1..] == events[i + 1..];
    RunFirst(before, capacity, events[i..]);
    var rest := Run(after, capacity, events[i + 1..]);
    assert earlier + (OptionToSeq(alert) + rest.1) == earlier + OptionToSeq(alert) + rest.1;
  }

  /** The seen cache evolves only with the delivered ids: errors and reloads never touch it. */
  lemma {:induction false} SeenFollowsDeliveries(s: MonitorState, capacity: nat, events: seq<Event>)
    ensures Run(s, capacity, events).0.seen == RunIds(s.seen, capacity, DeliveredIds(events)).0
    decreases |events|
  {
    if events != [] {
      var next := Step(s, capacity, events[0]).0;
      RunFirst(s, capacity, events);
      StepParts(s, capacity, events[0]);
      SeenFollowsDeliveries(next, capacity, events[1..]);
      var ids := DeliveredIds(events[1..]);
      if events[0].Delivered? {
        assert DeliveredIds(events) == [events[0].post.id] + ids;
        assert ([events[0].post.id] + ids)[1..] == ids;
      } else {
        assert DeliveredIds(events) == ids;
      }
    }
  }

  /** The keyword store evolves only with the keyword-file probes. */
  lemma {:induction false} StoreFollowsReloads(s: MonitorState, capacity: nat, events: seq<Event>)
    ensures Run(s, capacity, events).0.store == ReloadAll(s.store, Probes(events))
    decreases |events|
  {
    if events != [] {
      var next := Step(s, capacity, events[0]).0;
      RunFirst(s, capacity, events);
      StepParts(s, capacity, events[0]);
      StoreFollowsReloads(next, capacity, events[1..]);
      var probes := Probes(events[1..]);
      if events[0].KeywordFileModified? {
        assert Probes(events) == [events[0].probe] + probes;
        assert ([events[0].probe] + probes)[1..] == probes;
      } else {
        assert Probes(events) == probes;
      }
    }
  }

  /** Stream errors are invisible: the run with them raises the same alerts and ends in the
      same state as the run without them, so the cache survives every retry. */
  lemma {:induction false} StreamErrorsChangeNothing(s: MonitorState, capacity: nat, events: seq<Event>)
    ensures Run(s, capacity, events) == Run(s, capacity, WithoutErrors(events))
    decreases |events|
  {
    if events != [] {
      var next := Step(s, capacity, events[0]).0;
      var tail := WithoutErrors(events[1..]);
      RunFirst(s, capacity, events);
      StreamErrorsChangeNothing(next, capacity, events[1..]);
      if events[0].StreamError? {
        StepParts(s, capacity, events[0]);
        assert WithoutErrors(events) == tail;
        var rest := Run(s, capacity, events[1..]);
        assert OptionToSeq(None) + rest.1 == rest.1;
        assert Run(s, capacity, events) == rest;
      } else {
        assert WithoutErrors(events) == [events[0]] + tail;
        assert ([events[0]] + tail)[0] == events[0];
        assert ([events[0]] + tail)[1..] == tail;
        RunFirst(s, capacity, [events[0]] + tail);
      }
    }
  }

  /** An alert is raised only for a post whose id was not yet in the cache. */
  lemma AlertOnlyForUnseen(s: MonitorState, capacity: nat, post: Post)
    ensures Step(s, capacity, Delivered(post)).1.Some? ==> post.id !in s.seen
    ensures post.id in s.seen ==> Step(s, capacity, Delivered(post)) == (s, None)
  {
  }

  /** A post delivered again, with fewer than `capacity` new ids delivered in between
      (whatever errors and reloads happen meanwhile), raises no second alert and changes
      nothing. */
  lemma NoSecondAlert(s: MonitorState, capacity: nat, post: Post, between: seq<Event>, again: Post)
    requires |s.seen| <= capacity && capacity > 0 && post.id !in s.seen && again.id == post.id
    requires RunIds(Step(s, capacity, Delivered(post)).0.seen, capacity, DeliveredIds(between)).1 < capacity
    ensures var mid := Run(Step(s, capacity, Delivered(post)).0, capacity, between).0;
      Step(mid, capacity, Delivered(again)) == (mid, None)
  {
    var after := Step(s, capacity, Delivered(post)).0;
    assert after.seen == CheckAndAddStep(s.seen, capacity, post.id).1;
    SeenFollowsDeliveries(after, capacity, between);
    RedeliveryIsSkipped(s.seen, capacity, post.id, DeliveredIds(between));
  }

  /** The running monitor: the keyword store and the seen-post cache it shares with the
      file watcher. */
  class Monitor {
    const store: KeywordStore
    const cache: SeenPostCache

    /** The cache is a duplicate-free deque of at most `MAX_SEEN_POSTS` ids, and the store
        holds only keywords that came out of the parser. */
    ghost predicate Valid()
      reads this, store, cache
    {
      cache.Valid() && cache.capacity == MaxSeenPosts && AllKeywords(store.keywords)
    }

    function State(): MonitorState
      reads this, store, cache
    {
      MonitorState(store.State(), cache.items)
    }

    /** Start-up: an empty cache of `MAX_SEEN_POSTS` ids and the initial `load_keywords`. */
    constructor (initial: FileProbe)
      ensures Valid() && fresh(store) && fresh(cache)
      ensures State() == MonitorState(ReloadStep(InitialStore, initial), [])
    {
      store := new KeywordStore();
      cache := new SeenPostCache(MaxSeenPosts);
      new;
      ReloadKeepsKeywordsWellFormed(store.State(), initial);
      store.Reload(initial);
    }

    /** One submission of the stream: skip a seen id; otherwise record it, match a snapshot
        of the keywords against the lower-cased content and build the alert when something
        matched. */
    method ProcessPost(post: Post) returns (alert: Option<Alert>)
      requires Valid()
      modifies cache
      ensures Valid()
      ensures (State(), alert) == Step(old(State()), MaxSeenPosts, Delivered(post))
    {
      var seen := cache.CheckAndAdd(post.id);
      if seen {
        return None;
      }
      var snapshot := store.Snapshot();
      var content := Lower(post.title + "\n\n" + post.selftext);
      var matched := MatchKeywords(snapshot, content);
      if matched == [] {
        alert := None;
      } else {
        var subject := SubjectPrefix + Join(", ", matched);
        alert := Some(Alert(subject, matched, post.title, post.subreddit, AuthorName(post.author), post.url));
      }
    }

    /** `KeywordFileHandler.on_modified`: reload the keywords. */
    method OnKeywordFileModified(probe: FileProbe)
      requires Valid()
      modifies store
      ensures Valid()
      ensures State() == Step(old(State()), MaxSeenPosts, KeywordFileModified(probe)).0
    {
      ReloadKeepsKeywordsWellFormed(store.State(), probe);
      store.Reload(probe);
    }

    /** One event, handled as one atomic step: a post goes through `ProcessPost`, a stream
        error is logged and the stream reopened with all state kept, a file notification
        reloads the keywords. */
    method HandleEvent(e: Event) returns (alert: Option<Alert>)
      requires Valid()
      modifies store, cache
      ensures Valid()
      ensures (State(), alert) == Step(old(State()), MaxSeenPosts, e)
    {
      match e {
        case Delivered(post) =>
          alert := ProcessPost(post);
        case StreamError =>
          alert := None;
        case KeywordFileModified(probe) =>
          OnKeywordFileModified(probe);
          alert := None;
      }
    }

    /** The `while True` loop around the stream: events are handled in the order they
        arrive and the alerts are sent in that order. */
    method Consume(events: seq<Event>) returns (alerts: seq<Alert>)
      requires Valid()
      modifies store, cache
      ensures Valid()
      ensures (State(), alerts) == Run(old(State()), MaxSeenPosts, events)
    {
      alerts := [];
      var i := 0;
      ghost var goal := Run(State(), MaxSeenPosts, events);
      assert events[i..] == events;
      assert goal.1 == alerts + goal.1;
      while i < |events|
        invariant 0 <= i <= |events|
        invariant Valid()
        invariant goal == Resume(alerts, Run(State(), MaxSeenPosts, events[i..]))
      {
        ghost var before, earlier := State(), alerts;
        var alert := HandleEvent(events[i]);
        alerts := alerts + OptionToSeq(alert);
        ResumeStep(goal, earlier, before, MaxSeenPosts, events, i, State(), alert);
        i := i + 1;
      }
      assert events[i..] == [];
      assert alerts + [] == alerts;
    }
  }
}
