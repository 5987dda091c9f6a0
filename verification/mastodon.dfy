/**
 * The Mastodon poster (internal/mastodon/poster.go): visibility validation in
 * New, Post's dry-run short-circuit and toot fields, and PostEntries, a counting
 * loop that skips entries failing to render or to post. The API client is an
 * input: sendFails(i) says whether the status request for entry i fails.
 */
module Mastodon {
  import opened Wrappers
  import opened Database
  import opened Template
  import opened Configuration

  /** The client's server and token, and the settings every toot carries. */
  datatype Poster = Poster(server: string, accessToken: string, visibility: string, contentWarning: string)

  datatype PosterError = BadVisibility(visibility: string)

  /** New: refuses a visibility other than the four Mastodon knows, else keeps its arguments. */
  function NewPoster(server: string, accessToken: string, visibility: string, contentWarning: string): (r: Result<Poster, PosterError>)
    ensures r.Success? <==> ValidVisibility(visibility)
    ensures r.Failure? ==> r.error == BadVisibility(visibility)
    ensures r.Success? ==>
              && r.value.visibility == visibility && r.value.contentWarning == contentWarning
              && r.value.server == server && r.value.accessToken == accessToken
  {
    if !ValidVisibility(visibility) then Failure(BadVisibility(visibility))
    else Success(Poster(server, accessToken, visibility, contentWarning))
  }

  /** The status request PostStatus receives; an unset spoiler text is "". */
  datatype Toot = Toot(status: string, visibility: string, spoilerText: string)

  /** The toot Post builds: the content, the poster's visibility, and its content warning when it has one. */
  function MakeToot(p: Poster, content: string): (t: Toot)
    ensures t.status == content && t.visibility == p.visibility
    ensures t.spoilerText != "" <==> p.contentWarning != ""
    ensures p.contentWarning != "" ==> t.spoilerText == p.contentWarning
  {
    var toot := Toot(content, p.visibility, "");
    if p.contentWarning != "" then toot.(spoilerText := p.contentWarning) else toot
  }

  /** Whether Post returned no error, and the request it sent to the server, if any. */
  datatype Delivery = Delivery(ok: bool, request: Option<Toot>)

  /** Post: a dry run succeeds without a request; otherwise the toot is sent and the call's outcome returned. */
  function Post(p: Poster, content: string, dryRun: bool, sendFails: bool): (d: Delivery)
    ensures dryRun ==> d == Delivery(true, None)
    ensures !dryRun ==> d.request == Some(MakeToot(p, content)) && (d.ok <==> !sendFails)
  {
    if dryRun then Delivery(true, None)
    else Delivery(!sendFails, Some(MakeToot(p, content)))
  }

  // ---------------------------------------------------------------------------
  // PostEntries
  // ---------------------------------------------------------------------------

  /** Entry i counts when it renders and its Post then succeeds. */
  predicate DeliversAt(p: Poster, entries: seq<Entry>, i: nat, renderer: Renderer, dryRun: bool, sendFails: nat -> bool)
    requires i < |entries|
  {
    var rendered := Render(renderer, entries[i].data);
    rendered.Success? && Post(p, rendered.value.text, dryRun, sendFails(i)).ok
  }

  /** The count PostEntries returns after visiting entries. */
  function PostedCount(p: Poster, entries: seq<Entry>, renderer: Renderer, dryRun: bool, sendFails: nat -> bool): (n: nat)
    ensures n <= |entries|
    decreases |entries|
  {
    if entries == [] then 0
    else
      var k := |entries| - 1;
      PostedCount(p, entries[..k], renderer, dryRun, sendFails)
        + (if DeliversAt(p, entries, k, renderer, dryRun, sendFails) then 1 else 0)
  }

  /** The entries that were rendered and posted, in visiting order. */
  function Delivered(p: Poster, entries: seq<Entry>, renderer: Renderer, dryRun: bool, sendFails: nat -> bool): (d: seq<Entry>)
    ensures |d| <= |entries|
    decreases |entries|
  {
    if entries == [] then []
    else
      var k := |entries| - 1;
      Delivered(p, entries[..k], renderer, dryRun, sendFails)
        + (if DeliversAt(p, entries, k, renderer, dryRun, sendFails) then [entries[k]] else [])
  }

  /** The positions that count. */
  ghost function DeliveredIndices(p: Poster, entries: seq<Entry>, renderer: Renderer, dryRun: bool, sendFails: nat -> bool): set<nat> {
    set i: nat | i < |entries| && DeliversAt(p, entries, i, renderer, dryRun, sendFails)
  }

  /** The counting positions of entries are those of its prefix, plus the last one when it counts. */
  lemma DeliveredIndicesStep(p: Poster, entries: seq<Entry>, renderer: Renderer, dryRun: bool, sendFails: nat -> bool)
    requires entries != []
    ensures var k := |entries| - 1;
      DeliveredIndices(p, entries, renderer, dryRun, sendFails)
        == DeliveredIndices(p, entries[..k], renderer, dryRun, sendFails)
           + (if DeliversAt(p, entries, k, renderer, dryRun, sendFails) then {k} else {})
  {
    var k := |entries| - 1;
    var prefix := entries[..k];
    forall i: nat | i < k
      ensures DeliversAt(p, prefix, i, renderer, dryRun, sendFails) == DeliversAt(p, entries, i, renderer, dryRun, sendFails)
    {
      assert prefix[i] == entries[i];
    }
  }

  /**
   * Failures are isolated: the count is the number of positions whose own render and
   * post succeed, whatever happened at the other positions.
   */
  lemma {:induction false} PostedCountCounts(p: Poster, entries: seq<Entry>, renderer: Renderer, dryRun: bool, sendFails: nat -> bool)
    ensures PostedCount(p, entries, renderer, dryRun, sendFails) == |DeliveredIndices(p, entries, renderer, dryRun, sendFails)|
    decreases |entries|
  {
    if entries != [] {
      var k := |entries| - 1;
      var prefix := entries[..k];
      PostedCountCounts(p, prefix, renderer, dryRun, sendFails);
      DeliveredIndicesStep(p, entries, renderer, dryRun, sendFails);
      var before := DeliveredIndices(p, prefix, renderer, dryRun, sendFails);
      assert k !in before;
    }
  }

  /** The delivered entries are as many as the count, and are exactly the entries at counting positions. */
  lemma {:induction false} DeliveredSpec(p: Poster, entries: seq<Entry>, renderer: Renderer, dryRun: bool, sendFails: nat -> bool)
    ensures |Delivered(p, entries, renderer, dryRun, sendFails)| == PostedCount(p, entries, renderer, dryRun, sendFails)
    ensures forall e :: e in Delivered(p, entries, renderer, dryRun, sendFails) <==>
              exists i :: 0 <= i < |entries| && entries[i] == e && DeliversAt(p, entries, i, renderer, dryRun, sendFails)
    decreases |entries|
  {
    if entries != [] {
      var k := |entries| - 1;
      var prefix := entries[..k];
      DeliveredSpec(p, prefix, renderer, dryRun, sendFails);
      forall i: nat | i < k
        ensures prefix[i] == entries[i]
        ensures DeliversAt(p, prefix, i, renderer, dryRun, sendFails) == DeliversAt(p, entries, i, renderer, dryRun, sendFails)
      {
      }
      forall e
        ensures e in Delivered(p, entries, renderer, dryRun, sendFails) <==>
                exists i :: 0 <= i < |entries| && entries[i] == e && DeliversAt(p, entries, i, renderer, dryRun, sendFails)
      {
        if exists i :: 0 <= i < |entries| && entries[i] == e && DeliversAt(p, entries, i, renderer, dryRun, sendFails) {
          var i :| 0 <= i < |entries| && entries[i] == e && DeliversAt(p, entries, i, renderer, dryRun, sendFails);
          if i < k {
            assert prefix[i] == e;
          }
        }
      }
    }
  }

  /** A dry run sends nothing, so its outcome does not depend on the server. */
  lemma {:induction false} DryRunIgnoresServer(p: Poster, entries: seq<Entry>, renderer: Renderer, a: nat -> bool, b: nat -> bool)
    ensures PostedCount(p, entries, renderer, true, a) == PostedCount(p, entries, renderer, true, b)
    ensures Delivered(p, entries, renderer, true, a) == Delivered(p, entries, renderer, true, b)
    decreases |entries|
  {
    if entries != [] {
      DryRunIgnoresServer(p, entries[..|entries| - 1], renderer, a, b);
    }
  }

  /** In a dry run an entry counts exactly when it renders. */
  lemma DryRunCountsRenderable(p: Poster, entries: seq<Entry>, renderer: Renderer, sendFails: nat -> bool)
    ensures DeliveredIndices(p, entries, renderer, true, sendFails)
         == set i: nat | i < |entries| && Render(renderer, entries[i].data).Success?
    ensures PostedCount(p, entries, renderer, true, sendFails)
         == |set i: nat | i < |entries| && Render(renderer, entries[i].data).Success?|
  {
    PostedCountCounts(p, entries, renderer, true, sendFails);
  }

  /** When every entry counts, all are delivered; with no entries the count is 0. */
  lemma {:induction false} AllDelivered(p: Poster, entries: seq<Entry>, renderer: Renderer, dryRun: bool, sendFails: nat -> bool)
    requires forall i :: 0 <= i < |entries| ==> DeliversAt(p, entries, i, renderer, dryRun, sendFails)
    ensures PostedCount(p, entries, renderer, dryRun, sendFails) == |entries|
    ensures Delivered(p, entries, renderer, dryRun, sendFails) == entries
    decreases |entries|
  {
    if entries != [] {
      var k := |entries| - 1;
      var prefix := entries[..k];
      forall i | 0 <= i < k
        ensures DeliversAt(p, prefix, i, renderer, dryRun, sendFails)
      {
        assert prefix[i] == entries[i];
        assert DeliversAt(p, entries, i, renderer, dryRun, sendFails);
      }
      AllDelivered(p, prefix, renderer, dryRun, sendFails);
      assert prefix + [entries[k]] == entries;
    }
  }

  /** Three entries that all render give a dry-run count of three. */
  lemma DryRunThreeValid(p: Poster, a: Entry, b: Entry, c: Entry, renderer: Renderer, sendFails: nat -> bool)
    requires Render(renderer, a.data).Success? && Render(renderer, b.data).Success? && Render(renderer, c.data).Success?
    ensures PostedCount(p, [a, b, c], renderer, true, sendFails) == 3
  {
    AllDelivered(p, [a, b, c], renderer, true, sendFails);
  }

  /** A valid and an undecodable entry give a dry-run count of one. */
  lemma DryRunValidAndInvalid(p: Poster, valid: Entry, invalid: Entry, renderer: Renderer, sendFails: nat -> bool)
    requires Render(renderer, valid.data).Success? && renderer.decode(invalid.data).None?
    ensures PostedCount(p, [valid, invalid], renderer, true, sendFails) == 1
  {
    assert [valid, invalid][..1] == [valid];
    assert [valid][..0] == [];
  }

  /**
   * When every failure comes after every success, the delivered entries are the
   * first `count` entries.
   */
  ghost predicate FailuresLast(p: Poster, entries: seq<Entry>, renderer: Renderer, dryRun: bool, sendFails: nat -> bool) {
    forall i, j :: 0 <= i < j < |entries| && DeliversAt(p, entries, j, renderer, dryRun, sendFails) ==>
      DeliversAt(p, entries, i, renderer, dryRun, sendFails)
  }

  lemma {:induction false} FailuresLastPrefix(p: Poster, entries: seq<Entry>, renderer: Renderer, dryRun: bool, sendFails: nat -> bool)
    requires FailuresLast(p, entries, renderer, dryRun, sendFails)
    ensures Delivered(p, entries, renderer, dryRun, sendFails)
         == entries[..PostedCount(p, entries, renderer, dryRun, sendFails)]
    decreases |entries|
  {
    if entries != [] {
      var k := |entries| - 1;
      var prefix := entries[..k];
      forall i | 0 <= i < k
        ensures prefix[i] == entries[i]
        ensures DeliversAt(p, prefix, i, renderer, dryRun, sendFails) == DeliversAt(p, entries, i, renderer, dryRun, sendFails)
      {
      }
      if DeliversAt(p, entries, k, renderer, dryRun, sendFails) {
        AllDelivered(p, entries, renderer, dryRun, sendFails);
      } else {
        FailuresLastPrefix(p, prefix, renderer, dryRun, sendFails);
        var n := PostedCount(p, prefix, renderer, dryRun, sendFails);
        assert prefix[..n] == entries[..n];
      }
    }
  }

  /**
   * PostEntries: renders and posts each entry in order, skipping one that fails
   * either step, and returns how many succeeded; its error result is always nil.
   */
  method PostEntries(p: Poster, entries: seq<Entry>, renderer: Renderer, dryRun: bool, sendFails: nat -> bool)
    returns (posted: nat)
    ensures posted == PostedCount(p, entries, renderer, dryRun, sendFails)
  {
    posted := 0;
    for i := 0 to |entries|
      invariant posted == PostedCount(p, entries[..i], renderer, dryRun, sendFails)
    {
      assert entries[..i + 1][..i] == entries[..i];
      var content := Render(renderer, entries[i].data);
      if content.Failure? {
        continue;
      }
      var sent := Post(p, content.value.text, dryRun, sendFails(i));
      if !sent.ok {
        continue;
      }
      posted := posted + 1;
    }
    assert entries[..|entries|] == entries;
  }

  /** PostEntries reporting the entries that succeeded instead of only their number. */
  method PostEntriesDelivered(p: Poster, entries: seq<Entry>, renderer: Renderer, dryRun: bool, sendFails: nat -> bool)
    returns (delivered: seq<Entry>)
    ensures delivered == Delivered(p, entries, renderer, dryRun, sendFails)
  {
    delivered := [];
    for i := 0 to |entries|
      invariant delivered == Delivered(p, entries[..i], renderer, dryRun, sendFails)
    {
      assert entries[..i + 1][..i] == entries[..i];
      var content := Render(renderer, entries[i].data);
      if content.Failure? {
        continue;
      }
      var sent := Post(p, content.value.text, dryRun, sendFails(i));
      if !sent.ok {
        continue;
      }
      delivered := delivered + [entries[i]];
    }
    assert entries[..|entries|] == entries;
  }
}
