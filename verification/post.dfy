/**
 * The post command (internal/commands/post.go): authenticate, validate, choose
 * the page size, fetch the backlog, post it, then mark entries as posted. The
 * command marks the first `posted` entries of the page by position, and its
 * Validate call still requires the config's own token after getAccessToken found
 * one. The corrected variants mark the entries that were actually delivered and
 * validate the config carrying the token found.
 */
module PostCommand {
  import opened Wrappers
  import opened Database
  import opened Feed
  import opened Template
  import opened Configuration
  import opened AccessToken
  import opened Mastodon

  /**
   * What runPost learns from outside the entry store: whether the database opens,
   * the settings table, the --posts and --dry-run flags, how entry JSON decodes,
   * the template file once parsed (None when it cannot be read or parsed), and
   * which status requests and which MarkAsPosted calls fail.
   */
  datatype PostInputs = PostInputs(
    openFails: bool,
    settings: SettingsRead,
    postsFlag: Option<int>,
    dryRun: bool,
    decode: Blob -> Option<Item>,
    template: Option<Item -> Option<string>>,
    sendFails: nat -> bool,
    markFails: nat -> bool)

  datatype PostError =
    | OpenFailed
    | AuthenticationRequired(tokenError: TokenError)
    | InvalidConfig(configError: ConfigError)
    | TemplateFailed

  /** The summary printed: nothing to post, or the posted count and the failures reported beside it. */
  datatype PostReport = NothingToPost | Summary(dryRun: bool, posted: nat, failed: nat)

  /** The command's result and the entry table it leaves behind. */
  datatype PostRun = PostRun(result: Result<PostReport, PostError>, table: Table)

  /** The page size: the --posts flag when it was given, else the config's maxItems. */
  function Limit(cfg: Config, postsFlag: Option<int>): (limit: int)
    ensures postsFlag.Some? ==> limit == postsFlag.value
    ensures postsFlag.None? ==> limit == cfg.maxItems
  {
    if postsFlag.Some? then postsFlag.value else cfg.maxItems
  }

  /** The entries GetUnpostedEntries hands to the poster. */
  function Batch(cfg: Config, t: Table, postsFlag: Option<int>): seq<Entry> {
    Take(Unposted(t), Limit(cfg, postsFlag))
  }

  /** Where the run stands once the poster exists: stopped early, or ready to post a non-empty page. */
  datatype Prep = Stopped(run: PostRun) | Ready(entries: seq<Entry>, renderer: Renderer, poster: Poster)

  /**
   * Every step of runPost before PostEntries; none of them writes to the store.
   * Validate has accepted the visibility by the time the poster is built, so
   * mastodon.New cannot fail here.
   */
  function Prepare(cfg: Config, t: Table, inputs: PostInputs): (p: Prep)
    ensures p.Stopped? ==> p.run.table == t && (p.run.result.Failure? || p.run.result == Success(NothingToPost))
    ensures p.Ready? ==>
              && p.entries == Batch(cfg, t, inputs.postsFlag) && |p.entries| > 0
              && GetAccessToken(cfg, inputs.settings).Success? && Validate(cfg).None?
              && p.renderer.characterLimit == cfg.characterLimit
              && p.poster.visibility == cfg.postVisibility && p.poster.contentWarning == cfg.contentWarning
  {
    if inputs.openFails then Stopped(PostRun(Failure(OpenFailed), t))
    else
      var token := GetAccessToken(cfg, inputs.settings);
      if token.Failure? then Stopped(PostRun(Failure(AuthenticationRequired(token.error)), t))
      else if Validate(cfg).Some? then Stopped(PostRun(Failure(InvalidConfig(Validate(cfg).value)), t))
      else
        var entries := Batch(cfg, t, inputs.postsFlag);
        if |entries| == 0 then Stopped(PostRun(Success(NothingToPost), t))
        else if inputs.template.None? then Stopped(PostRun(Failure(TemplateFailed), t))
        else
          var poster := NewPoster(cfg.mastodonServer, token.value, cfg.postVisibility, cfg.contentWarning);
          Ready(entries, Renderer(inputs.decode, inputs.template.value, cfg.characterLimit), poster.value)
  }

  /** runPost as written: after posting, MarkAsPosted on entries[:posted]. */
  function RunPostSpec(cfg: Config, t: Table, inputs: PostInputs): PostRun {
    match Prepare(cfg, t, inputs)
    case Stopped(run) => run
    case Ready(entries, renderer, poster) =>
      var posted := PostedCount(poster, entries, renderer, inputs.dryRun, inputs.sendFails);
      var table := if inputs.dryRun then t else MarkEach(t, IdsOf(entries[..posted]), inputs.markFails);
      PostRun(Success(Summary(inputs.dryRun, posted, |entries| - posted)), table)
  }

  /** runPost corrected: MarkAsPosted on the entries PostEntries delivered. */
  function RunPostDeliveredSpec(cfg: Config, t: Table, inputs: PostInputs): PostRun {
    match Prepare(cfg, t, inputs)
    case Stopped(run) => run
    case Ready(entries, renderer, poster) =>
      var delivered := Delivered(poster, entries, renderer, inputs.dryRun, inputs.sendFails);
      var table := if inputs.dryRun then t else MarkEach(t, IdsOf(delivered), inputs.markFails);
      PostRun(Success(Summary(inputs.dryRun, |delivered|, |entries| - |delivered|)), table)
  }

  /**
   * runPost corrected in both places: Validate checks the config carrying the
   * token getAccessToken found, so a token stored only in the settings table is
   * enough, and the delivered entries are the ones marked.
   */
  function RunPostCorrectedSpec(cfg: Config, t: Table, inputs: PostInputs): PostRun {
    if inputs.openFails then PostRun(Failure(OpenFailed), t)
    else
      match GetAccessToken(cfg, inputs.settings)
      case Failure(e) => PostRun(Failure(AuthenticationRequired(e)), t)
      case Success(token) => RunPostDeliveredSpec(cfg.(mastodonAccessToken := token), t, inputs)
  }

  // ---------------------------------------------------------------------------
  // What every run guarantees
  // ---------------------------------------------------------------------------

  /**
   * A run that stops before posting (an error, or an empty backlog) leaves the
   * store as it was, and so does every dry run.
   */
  lemma StoreUntouchedUnlessPosting(cfg: Config, t: Table, inputs: PostInputs)
    ensures !RunPostSpec(cfg, t, inputs).result.Success? ==> RunPostSpec(cfg, t, inputs).table == t
    ensures RunPostSpec(cfg, t, inputs).result == Success(NothingToPost) ==> RunPostSpec(cfg, t, inputs).table == t
    ensures inputs.dryRun ==> RunPostSpec(cfg, t, inputs).table == t
  {
  }

  /** A valid, authenticated run with an empty page reports nothing to post. */
  lemma EmptyBacklogStopsEarly(cfg: Config, t: Table, inputs: PostInputs)
    requires !inputs.openFails && GetAccessToken(cfg, inputs.settings).Success? && Validate(cfg).None?
    requires Unposted(t) == []
    ensures RunPostSpec(cfg, t, inputs) == PostRun(Success(NothingToPost), t)
  {
  }

  /**
   * Validate runs after getAccessToken and still demands the config's token, so a
   * token held only in the settings table fails the run, with the store untouched.
   */
  lemma StoredTokenAloneFails(cfg: Config, t: Table, inputs: PostInputs)
    requires !inputs.openFails && cfg.mastodonAccessToken == ""
    ensures RunPostSpec(cfg, t, inputs).result.Failure? && RunPostSpec(cfg, t, inputs).table == t
    ensures cfg.feedUrl != "" && cfg.mastodonServer != "" && GetAccessToken(cfg, inputs.settings).Success? ==>
              RunPostSpec(cfg, t, inputs).result == Failure(InvalidConfig(AccessTokenRequired))
  {
  }

  /**
   * Corrected, the same configuration with the token only in the settings table
   * passes authentication and validation, and posts whenever there is a backlog
   * and a template; the code as written rejects it.
   */
  lemma StoredTokenSuffices(cfg: Config, t: Table, inputs: PostInputs)
    requires !inputs.openFails && cfg.mastodonAccessToken == ""
    requires inputs.settings.Settings? && TokenSetting in inputs.settings.values
    requires inputs.settings.values[TokenSetting] != ""
    requires cfg.feedUrl != "" && cfg.mastodonServer != "" && ValidVisibility(cfg.postVisibility)
    ensures var r := RunPostCorrectedSpec(cfg, t, inputs).result;
      && !(r.Failure? && (r.error.InvalidConfig? || r.error.AuthenticationRequired?))
      && (Unposted(t) != [] && inputs.template.Some? ==> r.Success? && r.value.Summary?)
    ensures RunPostSpec(cfg, t, inputs).result == Failure(InvalidConfig(AccessTokenRequired))
  {
    var token := inputs.settings.values[TokenSetting];
    var fixed := cfg.(mastodonAccessToken := token);
    assert GetAccessToken(cfg, inputs.settings) == Success(token);
    assert GetAccessToken(fixed, inputs.settings) == Success(token);
    assert Validate(fixed).None?;
  }

  /** With the token in the config the correction changes nothing about authentication. */
  lemma ConfigTokenRunsUncorrected(cfg: Config, t: Table, inputs: PostInputs)
    requires cfg.mastodonAccessToken != ""
    ensures RunPostCorrectedSpec(cfg, t, inputs) == RunPostDeliveredSpec(cfg, t, inputs)
  {
    assert cfg.(mastodonAccessToken := cfg.mastodonAccessToken) == cfg;
  }

  /** Corrected, a run with no token anywhere still fails authentication, with the store untouched. */
  lemma CorrectedStillNeedsToken(cfg: Config, t: Table, inputs: PostInputs)
    requires !inputs.openFails && cfg.mastodonAccessToken == ""
    requires inputs.settings.Settings?
    requires TokenSetting !in inputs.settings.values || inputs.settings.values[TokenSetting] == ""
    ensures RunPostCorrectedSpec(cfg, t, inputs) == PostRun(Failure(AuthenticationRequired(NoAccessToken)), t)
  {
  }

  /** The summary splits the page into posted and failed entries. */
  lemma SummaryCounts(cfg: Config, t: Table, inputs: PostInputs)
    requires RunPostSpec(cfg, t, inputs).result.Success?
    requires RunPostSpec(cfg, t, inputs).result.value.Summary?
    ensures var s := RunPostSpec(cfg, t, inputs).result.value;
      && s.dryRun == inputs.dryRun
      && s.posted + s.failed == |Batch(cfg, t, inputs.postsFlag)| > 0
  {
  }

  /**
   * Marking a sub-collection of a backlog page with no failing call posts exactly
   * the page entries in that sub-collection.
   */
  lemma MarkingPageEntries(t: Table, page: seq<Entry>, marked: seq<Entry>, fails: nat -> bool)
    requires WellFormed(t)
    requires forall e :: e in page ==> e in Unposted(t)
    requires forall e :: e in marked ==> e in page
    requires forall i :: 0 <= i < |marked| ==> !fails(i)
    ensures forall e :: e in page ==> (e.id in PostedIds(MarkEach(t, IdsOf(marked), fails)) <==> e in marked)
  {
    var ids := IdsOf(marked);
    MarkEachPosted(t, ids, fails);
    UnpostedIsBacklog(t);
    forall e | e in page
      ensures e.id in PostedIds(MarkEach(t, ids, fails)) <==> e in marked
    {
      assert e.id !in PostedIds(t);
      if e in marked {
        var i :| 0 <= i < |marked| && marked[i] == e;
        assert ids[i] == e.id;
      }
      if e.id in MarkedIds(t, ids, fails) {
        var i :| 0 <= i < |ids| && !fails(i) && ids[i] in t.rows && ids[i] == e.id;
        assert marked[i] in marked;
      }
    }
  }

  /**
   * As written, when no MarkAsPosted call fails, an entry of the page ends up posted
   * exactly when it is among the first `posted` entries, whichever ones were sent.
   */
  lemma MarksByPosition(cfg: Config, t: Table, inputs: PostInputs)
    requires WellFormed(t) && !inputs.dryRun
    requires forall i :: 0 <= i < |Batch(cfg, t, inputs.postsFlag)| ==> !inputs.markFails(i)
    requires RunPostSpec(cfg, t, inputs).result.Success?
    requires RunPostSpec(cfg, t, inputs).result.value.Summary?
    ensures var run := RunPostSpec(cfg, t, inputs);
      var page := Batch(cfg, t, inputs.postsFlag);
      forall e :: e in page ==> (e.id in PostedIds(run.table) <==> e in page[..run.result.value.posted])
  {
    var page := Batch(cfg, t, inputs.postsFlag);
    BacklogPage(t, Limit(cfg, inputs.postsFlag));
    var posted := RunPostSpec(cfg, t, inputs).result.value.posted;
    MarkingPageEntries(t, page, page[..posted], inputs.markFails);
  }

  /**
   * Corrected, when no MarkAsPosted call fails, an entry of the page ends up posted
   * exactly when it was rendered and sent.
   */
  lemma DeliveredRunMarksDelivered(cfg: Config, t: Table, inputs: PostInputs)
    requires WellFormed(t) && !inputs.dryRun
    requires forall i :: 0 <= i < |Batch(cfg, t, inputs.postsFlag)| ==> !inputs.markFails(i)
    requires Prepare(cfg, t, inputs).Ready?
    ensures var p := Prepare(cfg, t, inputs);
      var delivered := Delivered(p.poster, p.entries, p.renderer, false, inputs.sendFails);
      forall e :: e in p.entries ==> (e.id in PostedIds(RunPostDeliveredSpec(cfg, t, inputs).table) <==> e in delivered)
  {
    var p := Prepare(cfg, t, inputs);
    var delivered := Delivered(p.poster, p.entries, p.renderer, false, inputs.sendFails);
    assert RunPostDeliveredSpec(cfg, t, inputs).table == MarkEach(t, IdsOf(delivered), inputs.markFails);
    BacklogPage(t, Limit(cfg, inputs.postsFlag));
    DeliveredSpec(p.poster, p.entries, p.renderer, false, inputs.sendFails);
    MarkingPageEntries(t, p.entries, delivered, inputs.markFails);
  }

  /** The corrected run reports the same counts as the command as written. */
  lemma DeliveredRunCounts(cfg: Config, t: Table, inputs: PostInputs)
    ensures RunPostDeliveredSpec(cfg, t, inputs).result == RunPostSpec(cfg, t, inputs).result
  {
    var p := Prepare(cfg, t, inputs);
    if p.Ready? {
      DeliveredSpec(p.poster, p.entries, p.renderer, inputs.dryRun, inputs.sendFails);
    }
  }

  /** The two agree whenever every failed entry comes after every delivered one. */
  lemma AgreeWhenFailuresLast(cfg: Config, t: Table, inputs: PostInputs)
    requires Prepare(cfg, t, inputs).Ready?
    requires var p := Prepare(cfg, t, inputs);
      FailuresLast(p.poster, p.entries, p.renderer, inputs.dryRun, inputs.sendFails)
    ensures RunPostSpec(cfg, t, inputs) == RunPostDeliveredSpec(cfg, t, inputs)
  {
    var p := Prepare(cfg, t, inputs);
    FailuresLastPrefix(p.poster, p.entries, p.renderer, inputs.dryRun, inputs.sendFails);
    DeliveredSpec(p.poster, p.entries, p.renderer, inputs.dryRun, inputs.sendFails);
  }

  // ---------------------------------------------------------------------------
  // The discrepancy on a concrete run
  // ---------------------------------------------------------------------------

  /** A valid configuration with no page limit. */
  const ExampleConfig := Config("https://example.com/feed", "https://mastodon.example", "token", "t.txt", "db", 500, 0, "public", "")

  /** Entry "a" (stored first, data [0]) and entry "b" (data [1]), both unposted. */
  const ExampleA := Entry("a", [0], None, 0)
  const ExampleB := Entry("b", [1], None, 1)

  function ExampleTable(): Table {
    Inserted(Inserted(EmptyTable(0), "a", [0]), "b", [1])
  }

  /** Only data [1] decodes; every status request and every mark succeeds. */
  const ExampleInputs := PostInputs(false, Settings(map[]), None, false,
                                    (b: Blob) => if b == [1] then Some(Item("", "t", "l", "", None, [])) else None,
                                    Some((i: Item) => Some("status")),
                                    (i: nat) => false, (i: nat) => false)

  lemma ExampleBacklog()
    ensures Unposted(ExampleTable()) == [ExampleA, ExampleB]
  {
    var t := ExampleTable();
    assert t.order == ["a", "b"];
    assert t.order[..1] == ["a"];
    assert ["a"][..0] == [];
  }

  /** On the example the page is [a, b]; a fails to decode and b is sent. */
  lemma ExamplePage()
    ensures Prepare(ExampleConfig, ExampleTable(), ExampleInputs).Ready?
    ensures var p := Prepare(ExampleConfig, ExampleTable(), ExampleInputs);
      && p.entries == [ExampleA, ExampleB]
      && !DeliversAt(p.poster, p.entries, 0, p.renderer, false, ExampleInputs.sendFails)
      && DeliversAt(p.poster, p.entries, 1, p.renderer, false, ExampleInputs.sendFails)
  {
    ExampleBacklog();
  }

  lemma ExampleCount()
    ensures var p := Prepare(ExampleConfig, ExampleTable(), ExampleInputs);
      p.Ready? && PostedCount(p.poster, p.entries, p.renderer, false, ExampleInputs.sendFails) == 1
  {
    ExamplePage();
    var p := Prepare(ExampleConfig, ExampleTable(), ExampleInputs);
    assert p.entries[..1] == [ExampleA];
    assert [ExampleA][..0] == [];
  }

  lemma ExampleDelivered()
    ensures var p := Prepare(ExampleConfig, ExampleTable(), ExampleInputs);
      p.Ready? && Delivered(p.poster, p.entries, p.renderer, false, ExampleInputs.sendFails) == [ExampleB]
  {
    ExamplePage();
    var p := Prepare(ExampleConfig, ExampleTable(), ExampleInputs);
    assert p.entries[..1] == [ExampleA];
    assert [ExampleA][..0] == [];
  }

  /** The corrected run on the example marks exactly "b". */
  lemma ExampleDeliveredRun()
    ensures RunPostDeliveredSpec(ExampleConfig, ExampleTable(), ExampleInputs)
         == PostRun(Success(Summary(false, 1, 1)), MarkEach(ExampleTable(), ["b"], ExampleInputs.markFails))
  {
    ExampleDelivered();
    ExamplePage();
    var p := Prepare(ExampleConfig, ExampleTable(), ExampleInputs);
    var d := Delivered(p.poster, p.entries, p.renderer, false, ExampleInputs.sendFails);
    assert |d| == 1 && |p.entries| == 2;
    assert IdsOf(d) == ["b"];
  }

  /** A single MarkAsPosted call. */
  lemma MarkOne(t: Table, id: string, fails: nat -> bool)
    ensures MarkEach(t, [id], fails) == if fails(0) then t else Marked(t, id)
  {
    assert [id][..0] == [];
  }

  /** Marking one of the example's entries posts that entry alone. */
  lemma ExampleMarked(id: string)
    requires id == "a" || id == "b"
    ensures PostedIds(Marked(ExampleTable(), id)) == {id}
  {
    var t := ExampleTable();
    assert t.rows.Keys == {"a", "b"};
    assert PostedIds(t) == {};
    MarkedPostedIds(t, id);
  }

  /**
   * As written: "a" fails to render and "b" is posted, so posted == 1, and the run
   * marks entries[:1] == ["a"]: the entry never sent is marked, while the sent one
   * stays in the backlog and is posted again by the next run.
   */
  lemma RunPostMarksWrongEntry()
    ensures var run := RunPostSpec(ExampleConfig, ExampleTable(), ExampleInputs);
      && run.result == Success(Summary(false, 1, 1))
      && "a" in PostedIds(run.table) && "b" !in PostedIds(run.table)
  {
    ExampleCount();
    ExamplePage();
    var p := Prepare(ExampleConfig, ExampleTable(), ExampleInputs);
    assert p.entries[..1] == [ExampleA];
    assert IdsOf([ExampleA]) == ["a"];
    MarkOne(ExampleTable(), "a", ExampleInputs.markFails);
    ExampleMarked("a");
  }

  /** Corrected, on the same run: "b" is marked and "a" stays in the backlog. */
  lemma DeliveredRunMarksRightEntry()
    ensures var run := RunPostDeliveredSpec(ExampleConfig, ExampleTable(), ExampleInputs);
      && run.result == Success(Summary(false, 1, 1))
      && "b" in PostedIds(run.table) && "a" !in PostedIds(run.table)
  {
    ExampleDeliveredRun();
    MarkOne(ExampleTable(), "b", ExampleInputs.markFails);
    ExampleMarked("b");
  }

  // ---------------------------------------------------------------------------
  // The command
  // ---------------------------------------------------------------------------

  /** MarkAsPosted on each entry in turn; errors are logged and the loop goes on. */
  method MarkEntries(db: EntryStore, entries: seq<Entry>, markFails: nat -> bool)
    requires db.Valid()
    modifies db
    ensures db.Valid()
    ensures db.State() == MarkEach(old(db.State()), IdsOf(entries), markFails)
  {
    ghost var t0 := db.State();
    for k := 0 to |entries|
      invariant db.Valid()
      invariant db.State() == MarkEach(t0, IdsOf(entries[..k]), markFails)
    {
      assert IdsOf(entries[..k + 1])[..k] == IdsOf(entries[..k]);
      var err := db.MarkAsPosted(entries[k].id, markFails(k));
    }
    assert entries[..|entries|] == entries;
  }

  /** The as-written run once the page is posted, in terms of the posted count and the table left behind. */
  lemma PostedRun(cfg: Config, t: Table, inputs: PostInputs, posted: nat, after: Table)
    requires Prepare(cfg, t, inputs).Ready?
    requires var p := Prepare(cfg, t, inputs);
      && posted == PostedCount(p.poster, p.entries, p.renderer, inputs.dryRun, inputs.sendFails)
      && after == if inputs.dryRun then t else MarkEach(t, IdsOf(p.entries[..posted]), inputs.markFails)
    ensures RunPostSpec(cfg, t, inputs)
              == PostRun(Success(Summary(inputs.dryRun, posted, |Prepare(cfg, t, inputs).entries| - posted)), after)
  {
  }

  /** The corrected run once the page is posted, in terms of the delivered entries and the table left behind. */
  lemma DeliveredRun(cfg: Config, t: Table, inputs: PostInputs, delivered: seq<Entry>, after: Table)
    requires Prepare(cfg, t, inputs).Ready?
    requires var p := Prepare(cfg, t, inputs);
      && delivered == Delivered(p.poster, p.entries, p.renderer, inputs.dryRun, inputs.sendFails)
      && after == if inputs.dryRun then t else MarkEach(t, IdsOf(delivered), inputs.markFails)
    ensures RunPostDeliveredSpec(cfg, t, inputs)
              == PostRun(Success(Summary(inputs.dryRun, |delivered|, |Prepare(cfg, t, inputs).entries| - |delivered|)), after)
  {
  }

  /** Every step of runPost before PostEntries, on the store. */
  method PrepareRun(cfg: Config, db: EntryStore, inputs: PostInputs) returns (p: Prep)
    requires db.Valid()
    ensures p == Prepare(cfg, db.State(), inputs)
  {
    if inputs.openFails {
      return Stopped(PostRun(Failure(OpenFailed), db.State()));
    }
    var token := GetAccessToken(cfg, inputs.settings);
    if token.Failure? {
      return Stopped(PostRun(Failure(AuthenticationRequired(token.error)), db.State()));
    }
    var invalid := Validate(cfg);
    if invalid.Some? {
      return Stopped(PostRun(Failure(InvalidConfig(invalid.value)), db.State()));
    }
    var limit := cfg.maxItems;
    if inputs.postsFlag.Some? {
      limit := inputs.postsFlag.value;
    }
    var entries := db.GetUnpostedEntries(limit);
    if |entries| == 0 {
      return Stopped(PostRun(Success(NothingToPost), db.State()));
    }
    if inputs.template.None? {
      return Stopped(PostRun(Failure(TemplateFailed), db.State()));
    }
    var renderer := Renderer(inputs.decode, inputs.template.value, cfg.characterLimit);
    var poster := NewPoster(cfg.mastodonServer, token.value, cfg.postVisibility, cfg.contentWarning);
    return Ready(entries, renderer, poster.value);
  }

  /** runPost as written. */
  method RunPost(cfg: Config, db: EntryStore, inputs: PostInputs) returns (r: Result<PostReport, PostError>)
    requires db.Valid()
    modifies db
    ensures db.Valid()
    ensures PostRun(r, db.State()) == RunPostSpec(cfg, old(db.State()), inputs)
  {
    ghost var t0 := db.State();
    var p := PrepareRun(cfg, db, inputs);
    if p.Stopped? {
      return p.run.result;
    }
    var posted := PostEntries(p.poster, p.entries, p.renderer, inputs.dryRun, inputs.sendFails);
    if !inputs.dryRun {
      MarkEntries(db, p.entries[..posted], inputs.markFails);
    }
    PostedRun(cfg, t0, inputs, posted, db.State());
    return Success(Summary(inputs.dryRun, posted, |p.entries| - posted));
  }

  /** runPost corrected: the delivered entries are the ones marked. */
  method RunPostDelivered(cfg: Config, db: EntryStore, inputs: PostInputs) returns (r: Result<PostReport, PostError>)
    requires db.Valid()
    modifies db
    ensures db.Valid()
    ensures PostRun(r, db.State()) == RunPostDeliveredSpec(cfg, old(db.State()), inputs)
  {
    ghost var t0 := db.State();
    var p := PrepareRun(cfg, db, inputs);
    if p.Stopped? {
      return p.run.result;
    }
    var delivered := PostEntriesDelivered(p.poster, p.entries, p.renderer, inputs.dryRun, inputs.sendFails);
    if !inputs.dryRun {
      MarkEntries(db, delivered, inputs.markFails);
    }
    DeliveredRun(cfg, t0, inputs, delivered, db.State());
    return Success(Summary(inputs.dryRun, |delivered|, |p.entries| - |delivered|));
  }

  /** runPost with both corrections: authenticate, then run the delivered-marking command on the config carrying the token. */
  method RunPostCorrected(cfg: Config, db: EntryStore, inputs: PostInputs) returns (r: Result<PostReport, PostError>)
    requires db.Valid()
    modifies db
    ensures db.Valid()
    ensures PostRun(r, db.State()) == RunPostCorrectedSpec(cfg, old(db.State()), inputs)
  {
    if inputs.openFails {
      return Failure(OpenFailed);
    }
    var token := GetAccessToken(cfg, inputs.settings);
    if token.Failure? {
      return Failure(AuthenticationRequired(token.error));
    }
    r := RunPostDelivered(cfg.(mastodonAccessToken := token.value), db, inputs);
  }
}
