/** The publishing decision of `main` (scrape_to_ics.py:127-151): parse the
    fixtures; with none, leave a debug dump and stop; otherwise compare the
    fingerprint with the one stored in `STATE_FILE` and, when it differs,
    write the calendar to `OUTPUT_ICS` and then the new fingerprint. The
    page download, the regular expression, the ics serialisation and the
    hash are outside the model: the matches arrive as candidates, and
    `render` and `digest` are parameters. */
module Publisher {
  import opened Wrappers
  import opened Text
  import opened Civil
  import opened Fixtures
  import opened Events
  import opened Fingerprint

  /** What a run reports: the `WARNING` after an empty parse, `UPDATED`,
      `NO_CHANGE`, or the `ERROR` of an exception from `build_ics`. */
  datatype Outcome = NoFixtures | Updated | NoChange | Failed(error: DateError)

  /** The files a run writes: `debug.html`, `OUTPUT_ICS`, `STATE_FILE`. */
  datatype Target = DebugFile | OutputFile | StateFile

  /** The calendar file and the state file (None while missing), with the
      order in which the runs so far wrote files. */
  datatype Files = Files(output: Option<string>, state: Option<string>, writes: seq<Target>)

  /** The fingerprint of the last update: the stripped content of the
      state file, or the empty string while it is missing. */
  function Stored(state: Option<string>): string {
    if state.Some? then Strip(state.value) else ""
  }

  /** The fixture list a run works on. */
  function Parsed(team: string, candidates: seq<Candidate>): seq<Fixture> {
    Dedup(FilterTeam(team, candidates))
  }

  /** `main` from the parsed fixtures on: the outcome and the files as it
      leaves them. */
  function Publish(cfg: Config, digest: seq<Fixture> -> Digest, render: seq<Event> -> string,
                   fixtures: seq<Fixture>, files: Files): (Outcome, Files)
  {
    if fixtures == [] then
      (NoFixtures, files.(writes := files.writes + [DebugFile]))
    else
      var h := ComputeHash(digest, fixtures);
      if h != Stored(files.state) then
        match Calendar(cfg, fixtures)
        case Err(e) => (Failed(e), files)
        case Ok(events) =>
          (Updated, Files(Some(render(events)), Some(h), files.writes + [OutputFile, StateFile]))
      else
        (NoChange, files)
  }

  /** One run of `main` on the matches of the page, from the files as they
      are to the outcome and the files as it leaves them. */
  function Step(cfg: Config, digest: seq<Fixture> -> Digest, render: seq<Event> -> string,
                candidates: seq<Candidate>, files: Files): (Outcome, Files)
  {
    Publish(cfg, digest, render, Parsed(cfg.team, candidates), files)
  }

  /** The working directory of the scraper: the calendar file and the state
      file it rewrites in place. */
  class Site {
    var output: Option<string>
    var state: Option<string>
    var writes: seq<Target>

    function Snapshot(): Files
      reads this
    {
      Files(output, state, writes)
    }

    constructor(output: Option<string>, state: Option<string>)
      ensures Snapshot() == Files(output, state, [])
    {
      this.output := output;
      this.state := state;
      writes := [];
    }

    /** `main()` after the download. */
    method Run(cfg: Config, digest: seq<Fixture> -> Digest, render: seq<Event> -> string,
               candidates: seq<Candidate>) returns (outcome: Outcome)
      modifies this
      ensures (outcome, Snapshot()) == Step(cfg, digest, render, candidates, old(Snapshot()))
    {
      var fixtures := ParseFixtureRows(cfg.team, candidates);
      outcome := PublishFixtures(cfg, digest, render, fixtures);
    }

    /** `main()` after the parse: the debug dump, or the comparison of the
        fingerprints and the two writes of an update. */
    method PublishFixtures(cfg: Config, digest: seq<Fixture> -> Digest, render: seq<Event> -> string,
                           fixtures: seq<Fixture>) returns (outcome: Outcome)
      modifies this
      ensures (outcome, Snapshot()) == Publish(cfg, digest, render, fixtures, old(Snapshot()))
    {
      ghost var before := Snapshot();
      PublishCases(cfg, digest, render, fixtures, before);
      if |fixtures| == 0 {
        writes := writes + [DebugFile];
        return NoFixtures;
      }
      var h := ComputeHash(digest, fixtures);
      var stored := Stored(state);
      if h != stored {
        var cal := BuildIcs(cfg, fixtures);
        if cal.Err? {
          return Failed(cal.error);
        }
        output := Some(render(cal.value));
        writes := writes + [OutputFile];
        state := Some(h);
        writes := writes + [StateFile];
        assert writes == before.writes + [OutputFile, StateFile];
        return Updated;
      }
      return NoChange;
    }
  }

  // ---------------------------------------------------------------------
  // Properties of a run

  /** The outcome of publishing, case by case, and the files it leaves. */
  lemma PublishCases(cfg: Config, digest: seq<Fixture> -> Digest, render: seq<Event> -> string,
                     fixtures: seq<Fixture>, files: Files)
    ensures var (outcome, after) := Publish(cfg, digest, render, fixtures, files);
      var h := ComputeHash(digest, fixtures);
      && (outcome == NoFixtures <==> fixtures == [])
      && (outcome == NoChange <==> fixtures != [] && h == Stored(files.state))
      && (outcome == Updated <==> fixtures != [] && h != Stored(files.state) && Calendar(cfg, fixtures).Ok?)
      && (outcome.Failed? <==> fixtures != [] && h != Stored(files.state) && Calendar(cfg, fixtures).Err?)
      && (outcome == NoFixtures ==> after == files.(writes := files.writes + [DebugFile]))
      && (outcome == NoChange || outcome.Failed? ==> after == files)
      && (outcome.Failed? ==> outcome.error == Calendar(cfg, fixtures).error)
      && (outcome == Updated ==>
            after == Files(Some(render(Calendar(cfg, fixtures).value)), Some(h), files.writes + [OutputFile, StateFile]))
  {
  }

  /** A run finds nothing exactly when no match names the team; it then
      only leaves the debug dump. */
  lemma NothingParsed(cfg: Config, digest: seq<Fixture> -> Digest, render: seq<Event> -> string,
                      candidates: seq<Candidate>, files: Files)
    ensures var (outcome, after) := Step(cfg, digest, render, candidates, files);
      && (outcome == NoFixtures <==> FilterTeam(cfg.team, candidates) == [])
      && (outcome == NoFixtures ==>
            after.output == files.output && after.state == files.state
            && after.writes == files.writes + [DebugFile])
  {
    DedupEmpty(FilterTeam(cfg.team, candidates));
    PublishCases(cfg, digest, render, Parsed(cfg.team, candidates), files);
  }

  /** A run updates exactly when it finds fixtures whose fingerprint
      differs from the stored one and all of them build; it then writes
      the calendar of those fixtures first and their fingerprint second. */
  lemma UpdateWritesCalendarThenState(cfg: Config, digest: seq<Fixture> -> Digest,
                                      render: seq<Event> -> string, candidates: seq<Candidate>, files: Files)
    ensures var fixtures := Parsed(cfg.team, candidates);
      var (outcome, after) := Step(cfg, digest, render, candidates, files);
      && (outcome == Updated <==>
            fixtures != [] && ComputeHash(digest, fixtures) != Stored(files.state)
            && forall i :: 0 <= i < |fixtures| ==> BuildEvent(cfg, fixtures[i]).Ok?)
      && (outcome == Updated ==>
            after.state == Some(ComputeHash(digest, fixtures))
            && after.output == Some(render(Calendar(cfg, fixtures).value))
            && |Calendar(cfg, fixtures).value| == |fixtures|
            && after.writes == files.writes + [OutputFile, StateFile])
  {
    var fixtures := Parsed(cfg.team, candidates);
    PublishCases(cfg, digest, render, fixtures, files);
    CalendarEvents(cfg, fixtures);
  }

  /** A run that fails writes nothing and reports the error of the first
      fixture whose event does not build. */
  lemma FailureWritesNothing(cfg: Config, digest: seq<Fixture> -> Digest, render: seq<Event> -> string,
                             candidates: seq<Candidate>, files: Files)
    requires Step(cfg, digest, render, candidates, files).0.Failed?
    ensures Step(cfg, digest, render, candidates, files).1 == files
    ensures var fixtures := Parsed(cfg.team, candidates);
      exists i :: 0 <= i < |fixtures|
        && BuildEvent(cfg, fixtures[i]) == Err(Step(cfg, digest, render, candidates, files).0.error)
        && forall k :: 0 <= k < i ==> BuildEvent(cfg, fixtures[k]).Ok?
  {
    var fixtures := Parsed(cfg.team, candidates);
    PublishCases(cfg, digest, render, fixtures, files);
    CalendarFirstError(cfg, fixtures);
  }

  /** With no fingerprint stored (a missing or blank state file), a run that
      finds fixtures never reports `NO_CHANGE`: it updates, or fails on a
      fixture that does not build. */
  lemma FirstRunPublishes(cfg: Config, digest: seq<Fixture> -> Digest, render: seq<Event> -> string,
                          candidates: seq<Candidate>, files: Files)
    requires Stored(files.state) == ""
    ensures var outcome := Step(cfg, digest, render, candidates, files).0;
      outcome != NoChange
      && (outcome == Updated || outcome.Failed? <==> Parsed(cfg.team, candidates) != [])
  {
    var fixtures := Parsed(cfg.team, candidates);
    PublishCases(cfg, digest, render, fixtures, files);
    HashLength(digest, fixtures);
  }

  /** Publishing the same fixtures again after an update, or after a run
      that found nothing new, changes nothing: the state file then holds
      their fingerprint, which stripping leaves as it is. */
  lemma RepublishNoChange(cfg: Config, digest: seq<Fixture> -> Digest, render: seq<Event> -> string,
                          fixtures: seq<Fixture>, files: Files)
    requires Publish(cfg, digest, render, fixtures, files).0 in {Updated, NoChange}
    ensures var after := Publish(cfg, digest, render, fixtures, files).1;
      Publish(cfg, digest, render, fixtures, after) == (NoChange, after)
  {
    var h := ComputeHash(digest, fixtures);
    var after := Publish(cfg, digest, render, fixtures, files).1;
    PublishCases(cfg, digest, render, fixtures, files);
    StoredHash(digest, fixtures);
    assert Stored(after.state) == h;
  }

  /** A state file holding a fingerprint reads back as that fingerprint. */
  lemma StoredHash(digest: seq<Fixture> -> Digest, fixtures: seq<Fixture>)
    ensures Stored(Some(ComputeHash(digest, fixtures))) == ComputeHash(digest, fixtures)
  {
    StripHex(digest(Sort(fixtures)));
  }

  /** Running again on the same page after an update, or after a run that
      found nothing new, changes nothing. */
  lemma SecondRunNoChange(cfg: Config, digest: seq<Fixture> -> Digest, render: seq<Event> -> string,
                          candidates: seq<Candidate>, files: Files)
    requires Step(cfg, digest, render, candidates, files).0 in {Updated, NoChange}
    ensures var after := Step(cfg, digest, render, candidates, files).1;
      Step(cfg, digest, render, candidates, after) == (NoChange, after)
  {
    RepublishNoChange(cfg, digest, render, Parsed(cfg.team, candidates), files);
  }

  /** After an update or a run that changed nothing, publishing a
      permutation of the same fixtures changes nothing, provided no two of
      them share a key. */
  lemma PermutedFixturesNoChange(cfg: Config, digest: seq<Fixture> -> Digest, render: seq<Event> -> string,
                                 fs: seq<Fixture>, gs: seq<Fixture>, files: Files)
    requires KeyDetermines(fs) && multiset(fs) == multiset(gs)
    requires Publish(cfg, digest, render, fs, files).0 in {Updated, NoChange}
    ensures var after := Publish(cfg, digest, render, fs, files).1;
      Publish(cfg, digest, render, gs, after) == (NoChange, after)
  {
    HashIgnoresOrder(digest, fs, gs);
    RepublishNoChange(cfg, digest, render, fs, files);
    PublishCases(cfg, digest, render, fs, files);
    PublishCases(cfg, digest, render, gs, Publish(cfg, digest, render, fs, files).1);
    assert gs != [] by {
      assert |multiset(gs)| == |multiset(fs)| == |fs| > 0;
    }
  }

  /** The fixture lists of two pages with the same matches, in any order and
      with any repetition, are permutations of each other, when the times
      are absent or non-empty as the page pattern produces them. */
  lemma SameMatchesSameFixtures(team: string, cs: seq<Candidate>, ds: seq<Candidate>)
    requires forall c :: c in cs <==> c in ds
    requires forall c :: c in cs ==> c.time != Some([])
    ensures multiset(Parsed(team, cs)) == multiset(Parsed(team, ds))
  {
    var fs, gs := FilterTeam(team, cs), FilterTeam(team, ds);
    FilterTeamMembers(team, cs);
    FilterTeamMembers(team, ds);
    assert forall f :: f in fs <==> f in gs;
    forall i | 0 <= i < |fs|
      ensures fs[i].time != Some([])
    {
      assert fs[i] in fs;
    }
    forall i | 0 <= i < |gs|
      ensures gs[i].time != Some([])
    {
      assert gs[i] in gs;
    }
    MatchedTimesDetermine(fs);
    MatchedTimesDetermine(gs);
    DedupSameElements(fs);
    DedupSameElements(gs);
    DedupNoDuplicateKeys(fs);
    DedupNoDuplicateKeys(gs);
    DistinctPermutation(Dedup(fs), Dedup(gs));
  }

  /** After an update or a run that changed nothing, reordering or
      repeating the matches of the page does not make the next run update
      the calendar. */
  lemma ReorderedPageNoChange(cfg: Config, digest: seq<Fixture> -> Digest, render: seq<Event> -> string,
                              cs: seq<Candidate>, ds: seq<Candidate>, files: Files)
    requires forall c :: c in cs <==> c in ds
    requires forall c :: c in cs ==> c.time != Some([])
    requires Step(cfg, digest, render, cs, files).0 in {Updated, NoChange}
    ensures var after := Step(cfg, digest, render, cs, files).1;
      Step(cfg, digest, render, ds, after) == (NoChange, after)
  {
    var fs := Parsed(cfg.team, cs);
    SameMatchesSameFixtures(cfg.team, cs, ds);
    ParsedFixtures(cfg.team, cs);
    NoDuplicatesDetermine(fs);
    PermutedFixturesNoChange(cfg, digest, render, fs, Parsed(cfg.team, ds), files);
  }
}
