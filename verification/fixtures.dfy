/** The fixture list of `parse_fixture_rows` (scrape_to_ics.py:21-55): each
    match of the page pattern is normalised, kept only when it names the
    configured team, and the survivors are de-duplicated on
    (home, away, date, time-or-empty), keeping first occurrences in page
    order. The regular expression itself is not part of this model: its
    matches arrive as a sequence of candidates. */
module Fixtures {
  import opened Wrappers
  import opened Text

  /** One match of the page pattern: the raw `home` and `away` groups, the
      `dd.mm.yyyy` date and the optional `HH:MM` time. */
  datatype Candidate = Candidate(home: string, away: string, date: string, time: Option<string>)

  /** One fixture dictionary as the scraper builds it. */
  datatype Fixture = Fixture(home: string, away: string, date: string, time: Option<string>)

  /** `f["time"] or ""`. */
  function TimeOrEmpty(time: Option<string>): string {
    if time.Some? then time.value else ""
  }

  /** The de-duplication key `(home, away, date, time or "")`. */
  type Key = (string, string, string, string)

  function KeyOf(f: Fixture): Key {
    (f.home, f.away, f.date, TimeOrEmpty(f.time))
  }

  /** The keys of `fs`, as the `seen` set holds them. */
  function KeySet(fs: seq<Fixture>): set<Key>
    decreases |fs|
  {
    if fs == [] then {} else KeySet(fs[..|fs| - 1]) + {KeyOf(fs[|fs| - 1])}
  }

  predicate NoDuplicateKeys(fs: seq<Fixture>) {
    forall i, j :: 0 <= i < j < |fs| ==> KeyOf(fs[i]) != KeyOf(fs[j])
  }

  /** The fixture a candidate becomes: team names with whitespace runs
      collapsed and the ends stripped, date and time as matched. */
  function Normalize(c: Candidate): Fixture {
    Fixture(NormalizeSpace(c.home), NormalizeSpace(c.away), c.date, c.time)
  }

  /** The team filter `TEAM.lower() in home.lower() + " " + away.lower()`. */
  predicate Mentions(team: string, f: Fixture) {
    Contains(Lower(f.home) + " " + Lower(f.away), Lower(team))
  }

  /** `is_home(fix)` (scrape_to_ics.py:64-65). */
  predicate IsHome(team: string, f: Fixture) {
    Lower(f.home) == Lower(team)
  }

  /** The filtering loop: the normalised candidates that mention the team,
      in page order. */
  function FilterTeam(team: string, cs: seq<Candidate>): seq<Fixture>
    decreases |cs|
  {
    if cs == [] then []
    else
      var f := Normalize(cs[|cs| - 1]);
      FilterTeam(team, cs[..|cs| - 1]) + (if Mentions(team, f) then [f] else [])
  }

  /** The de-duplication loop: a fixture is appended unless its key was
      already seen. */
  function Dedup(fs: seq<Fixture>): seq<Fixture>
    decreases |fs|
  {
    if fs == [] then []
    else
      var init := fs[..|fs| - 1];
      var f := fs[|fs| - 1];
      if KeyOf(f) in KeySet(init) then Dedup(init) else Dedup(init) + [f]
  }

  // ---------------------------------------------------------------------
  // The reference: first occurrences, by index

  /** Position `i` holds the first fixture of its key. */
  predicate IsFirst(fs: seq<Fixture>, i: int)
    requires 0 <= i < |fs|
  {
    forall k :: 0 <= k < i ==> KeyOf(fs[k]) != KeyOf(fs[i])
  }

  /** The first-occurrence positions below `n`, in increasing order. */
  function Firsts(fs: seq<Fixture>, n: nat): (idx: seq<nat>)
    requires n <= |fs|
    ensures forall j :: 0 <= j < |idx| ==> idx[j] < n
  {
    if n == 0 then []
    else Firsts(fs, n - 1) + (if IsFirst(fs, n - 1) then [n - 1] else [])
  }

  /** The fixtures at the given positions. */
  function Pick(fs: seq<Fixture>, idx: seq<nat>): seq<Fixture>
    requires forall j :: 0 <= j < |idx| ==> idx[j] < |fs|
  {
    seq(|idx|, j requires 0 <= j < |idx| => fs[idx[j]])
  }

  // ---------------------------------------------------------------------
  // The loops, as the scraper runs them

  /** `parse_fixture_rows` after the pattern matching: the filtering loop
      over the matches, then the de-duplication loop. */
  method ParseFixtureRows(team: string, candidates: seq<Candidate>) returns (uniq: seq<Fixture>)
    ensures uniq == Dedup(FilterTeam(team, candidates))
    ensures forall f :: f in uniq ==> Mentions(team, f)
    ensures NoDuplicateKeys(uniq)
    ensures KeySet(uniq) == KeySet(FilterTeam(team, candidates))
  {
    var fixtures := FilterMatches(team, candidates);
    uniq := DedupFixtures(fixtures);
    ParsedFixtures(team, candidates);
  }

  /** The loop over the pattern's matches (scrape_to_ics.py:33-45):
      normalise the names and keep the fixture when it names the team. */
  method FilterMatches(team: string, candidates: seq<Candidate>) returns (fixtures: seq<Fixture>)
    ensures fixtures == FilterTeam(team, candidates)
  {
    fixtures := [];
    var i := 0;
    while i < |candidates|
      invariant 0 <= i <= |candidates|
      invariant fixtures == FilterTeam(team, candidates[..i])
    {
      var f := Normalize(candidates[i]);
      FilterTeamStep(team, candidates, i);
      if Mentions(team, f) {
        fixtures := fixtures + [f];
      }
      i := i + 1;
    }
    assert candidates[..i] == candidates;
  }

  /** The loop with the `seen` set (scrape_to_ics.py:49-55): a fixture is
      kept unless an earlier one had its key. */
  method DedupFixtures(fixtures: seq<Fixture>) returns (uniq: seq<Fixture>)
    ensures uniq == Dedup(fixtures)
    ensures NoDuplicateKeys(uniq) && KeySet(uniq) == KeySet(fixtures)
  {
    uniq := [];
    var seen: set<Key> := {};
    var j := 0;
    assert fixtures[..0] == [];
    while j < |fixtures|
      invariant 0 <= j <= |fixtures|
      invariant uniq == Dedup(fixtures[..j])
      invariant seen == KeySet(fixtures[..j])
    {
      var f := fixtures[j];
      var key := KeyOf(f);
      DedupStep(fixtures, j);
      if key !in seen {
        seen := seen + {key};
        uniq := uniq + [f];
      }
      j := j + 1;
    }
    assert fixtures[..j] == fixtures;
    DedupNoDuplicateKeys(fixtures);
    DedupKeepsKeys(fixtures);
  }

  /** One turn of the filtering loop. */
  lemma FilterTeamStep(team: string, cs: seq<Candidate>, i: nat)
    requires i < |cs|
    ensures FilterTeam(team, cs[..i + 1])
         == FilterTeam(team, cs[..i]) + (if Mentions(team, Normalize(cs[i])) then [Normalize(cs[i])] else [])
  {
    assert cs[..i + 1][..i] == cs[..i];
  }

  /** One turn of the de-duplication loop. */
  lemma DedupStep(fs: seq<Fixture>, j: nat)
    requires j < |fs|
    ensures Dedup(fs[..j + 1]) == if KeyOf(fs[j]) in KeySet(fs[..j]) then Dedup(fs[..j]) else Dedup(fs[..j]) + [fs[j]]
    ensures KeySet(fs[..j + 1]) == KeySet(fs[..j]) + {KeyOf(fs[j])}
  {
    assert fs[..j + 1][..j] == fs[..j];
    assert fs[..j + 1] == fs[..j] + [fs[j]];
    KeySetSnoc(fs[..j], fs[j]);
  }

  /** What the scraper's fixture list guarantees: every fixture names the
      team and has normalised names, no key repeats, and every key that
      passed the filter is represented. */
  lemma ParsedFixtures(team: string, cs: seq<Candidate>)
    ensures forall f :: f in Dedup(FilterTeam(team, cs)) ==>
      Mentions(team, f) && Normalized(f.home) && Normalized(f.away)
    ensures NoDuplicateKeys(Dedup(FilterTeam(team, cs)))
    ensures KeySet(Dedup(FilterTeam(team, cs))) == KeySet(FilterTeam(team, cs))
  {
    var fs := FilterTeam(team, cs);
    FilterTeamMembers(team, cs);
    FilterTeamNormalized(team, cs);
    DedupSubset(fs);
    DedupNoDuplicateKeys(fs);
    DedupKeepsKeys(fs);
  }

  // ---------------------------------------------------------------------
  // Properties

  lemma KeySetSnoc(fs: seq<Fixture>, f: Fixture)
    ensures KeySet(fs + [f]) == KeySet(fs) + {KeyOf(f)}
  {
    assert (fs + [f])[..|fs|] == fs;
  }

  /** A key is in the set exactly when some fixture has it. */
  lemma {:induction false} KeySetMembers(fs: seq<Fixture>)
    ensures forall k :: k in KeySet(fs) <==> exists i :: 0 <= i < |fs| && KeyOf(fs[i]) == k
    decreases |fs|
  {
    if fs != [] {
      var init := fs[..|fs| - 1];
      KeySetMembers(init);
      forall k | k in KeySet(fs)
        ensures exists i :: 0 <= i < |fs| && KeyOf(fs[i]) == k
      {
        if k in KeySet(init) {
          var i :| 0 <= i < |init| && KeyOf(init[i]) == k;
          assert KeyOf(fs[i]) == k;
        }
      }
    }
  }

  /** A fixture survives the filter exactly when it is the normalised form
      of some match and names the team. */
  lemma {:induction false} FilterTeamMembers(team: string, cs: seq<Candidate>)
    ensures forall f :: f in FilterTeam(team, cs) <==>
      (exists c :: c in cs && f == Normalize(c)) && Mentions(team, f)
    decreases |cs|
  {
    if cs != [] {
      var init, last := cs[..|cs| - 1], cs[|cs| - 1];
      FilterTeamMembers(team, init);
      assert cs == init + [last];
      forall f | f in FilterTeam(team, cs)
        ensures (exists c :: c in cs && f == Normalize(c)) && Mentions(team, f)
      {
        if f in FilterTeam(team, init) {
          var c :| c in init && f == Normalize(c);
          assert c in cs;
        } else {
          assert last in cs;
        }
      }
      forall f | (exists c :: c in cs && f == Normalize(c)) && Mentions(team, f)
        ensures f in FilterTeam(team, cs)
      {
        var c :| c in cs && f == Normalize(c);
        if c != last {
          assert c in init;
        }
      }
    }
  }

  /** Every kept fixture has normalised team names. */
  lemma FilterTeamNormalized(team: string, cs: seq<Candidate>)
    ensures forall f :: f in FilterTeam(team, cs) ==> Normalized(f.home) && Normalized(f.away)
  {
    FilterTeamMembers(team, cs);
    forall f | f in FilterTeam(team, cs)
      ensures Normalized(f.home) && Normalized(f.away)
    {
      var c :| c in cs && f == Normalize(c);
      NormalizeSpaceIsNormal(c.home);
      NormalizeSpaceIsNormal(c.away);
    }
  }

  /** De-duplication only drops fixtures. */
  lemma {:induction false} DedupSubset(fs: seq<Fixture>)
    ensures forall f :: f in Dedup(fs) ==> f in fs
    decreases |fs|
  {
    if fs != [] {
      var init := fs[..|fs| - 1];
      DedupSubset(init);
      assert fs == init + [fs[|fs| - 1]];
    }
  }

  /** No two fixtures of the result share a key. */
  lemma {:induction false} DedupNoDuplicateKeys(fs: seq<Fixture>)
    ensures NoDuplicateKeys(Dedup(fs))
    decreases |fs|
  {
    if fs != [] {
      var init := fs[..|fs| - 1];
      var f := fs[|fs| - 1];
      DedupNoDuplicateKeys(init);
      if KeyOf(f) !in KeySet(init) {
        var d := Dedup(init);
        DedupKeepsKeys(init);
        forall i | 0 <= i < |d|
          ensures KeyOf(d[i]) != KeyOf(f)
        {
          KeySetMembers(d);
          assert KeyOf(d[i]) in KeySet(d);
        }
      }
    }
  }

  /** Every key of the input is kept. */
  lemma {:induction false} DedupKeepsKeys(fs: seq<Fixture>)
    ensures KeySet(Dedup(fs)) == KeySet(fs)
    decreases |fs|
  {
    if fs != [] {
      var init := fs[..|fs| - 1];
      var f := fs[|fs| - 1];
      DedupKeepsKeys(init);
      assert fs == init + [f];
      KeySetSnoc(init, f);
      if KeyOf(f) !in KeySet(init) {
        KeySetSnoc(Dedup(init), f);
      }
    }
  }

  /** The first-occurrence positions are exactly the positions that hold
      the first fixture of their key, in increasing order. */
  lemma {:induction false} FirstsAreFirsts(fs: seq<Fixture>, n: nat)
    requires n <= |fs|
    ensures forall j :: 0 <= j < |Firsts(fs, n)| ==> IsFirst(fs, Firsts(fs, n)[j])
    ensures forall j, j' :: 0 <= j < j' < |Firsts(fs, n)| ==> Firsts(fs, n)[j] < Firsts(fs, n)[j']
    ensures forall i :: 0 <= i < n && IsFirst(fs, i) ==> i in Firsts(fs, n)
    decreases n
  {
    if n > 0 {
      FirstsAreFirsts(fs, n - 1);
    }
  }

  /** Which positions below `m` are first occurrences depends only on the
      first `m` fixtures. */
  lemma {:induction false} FirstsOfPrefix(fs: seq<Fixture>, gs: seq<Fixture>, m: nat)
    requires m <= |fs| && m <= |gs| && fs[..m] == gs[..m]
    ensures Firsts(fs, m) == Firsts(gs, m)
    decreases m
  {
    if m > 0 {
      assert fs[..m - 1] == fs[..m][..m - 1];
      assert gs[..m - 1] == gs[..m][..m - 1];
      FirstsOfPrefix(fs, gs, m - 1);
      assert forall k :: 0 <= k < m ==> fs[k] == fs[..m][k] && gs[k] == gs[..m][k];
      assert IsFirst(fs, m - 1) == IsFirst(gs, m - 1);
    }
  }

  lemma PickOfPrefix(fs: seq<Fixture>, m: nat, idx: seq<nat>)
    requires m <= |fs| && forall j :: 0 <= j < |idx| ==> idx[j] < m
    ensures Pick(fs[..m], idx) == Pick(fs, idx)
  {
  }

  lemma PickSnoc(fs: seq<Fixture>, idx: seq<nat>, i: nat)
    requires i < |fs| && forall j :: 0 <= j < |idx| ==> idx[j] < |fs|
    ensures Pick(fs, idx + [i]) == Pick(fs, idx) + [fs[i]]
  {
  }

  /** The last fixture is the first of its key exactly when its key is not
      among those before it. */
  lemma LastIsFirst(fs: seq<Fixture>)
    requires fs != []
    ensures IsFirst(fs, |fs| - 1) <==> KeyOf(fs[|fs| - 1]) !in KeySet(fs[..|fs| - 1])
  {
    var init := fs[..|fs| - 1];
    KeySetMembers(init);
    if KeyOf(fs[|fs| - 1]) in KeySet(init) {
      var k :| 0 <= k < |init| && KeyOf(init[k]) == KeyOf(fs[|fs| - 1]);
      assert KeyOf(fs[k]) == KeyOf(fs[|fs| - 1]);
    }
  }

  /** The result is the fixtures at the first-occurrence positions of their
      keys, in page order. */
  lemma {:induction false} DedupKeepsFirsts(fs: seq<Fixture>)
    ensures Dedup(fs) == Pick(fs, Firsts(fs, |fs|))
    decreases |fs|
  {
    if fs != [] {
      var n := |fs|;
      var init := fs[..n - 1];
      var f := fs[n - 1];
      DedupKeepsFirsts(init);
      assert init[..n - 1] == fs[..n - 1];
      FirstsOfPrefix(init, fs, n - 1);
      var idx := Firsts(fs, n - 1);
      PickOfPrefix(fs, n - 1, idx);
      assert Dedup(init) == Pick(fs, idx);
      LastIsFirst(fs);
      if IsFirst(fs, n - 1) {
        PickSnoc(fs, idx, n - 1);
      }
    }
  }

  /** Fixtures whose de-duplication keys agree are the same fixture. */
  predicate KeyDetermines(fs: seq<Fixture>) {
    forall i, j :: 0 <= i < |fs| && 0 <= j < |fs| && KeyOf(fs[i]) == KeyOf(fs[j]) ==> fs[i] == fs[j]
  }

  /** A list without repeated keys qualifies. */
  lemma NoDuplicatesDetermine(fs: seq<Fixture>)
    requires NoDuplicateKeys(fs)
    ensures KeyDetermines(fs)
  {
    forall i, j | 0 <= i < |fs| && 0 <= j < |fs| && KeyOf(fs[i]) == KeyOf(fs[j])
      ensures fs[i] == fs[j]
    {
      if i < j || j < i {
        assert false;
      }
    }
  }

  /** So does any list whose times are absent or non-empty, as the page
      pattern produces them: then the key is the whole fixture. */
  lemma MatchedTimesDetermine(fs: seq<Fixture>)
    requires forall i :: 0 <= i < |fs| ==> fs[i].time != Some([])
    ensures KeyDetermines(fs)
  {
  }

  /** De-duplication leaves a list empty exactly when it was empty. */
  lemma DedupEmpty(fs: seq<Fixture>)
    ensures Dedup(fs) == [] <==> fs == []
  {
    if fs != [] {
      DedupKeepsKeys(fs);
      KeySetMembers(fs);
      assert KeyOf(fs[0]) in KeySet(fs);
    }
  }

  /** When equal keys mean equal fixtures, de-duplication drops only
      repeats: every fixture of the input is still there. */
  lemma DedupSameElements(fs: seq<Fixture>)
    requires KeyDetermines(fs)
    ensures forall f :: f in Dedup(fs) <==> f in fs
  {
    DedupSubset(fs);
    DedupKeepsKeys(fs);
    KeySetMembers(fs);
    KeySetMembers(Dedup(fs));
    forall f | f in fs
      ensures f in Dedup(fs)
    {
      var i :| 0 <= i < |fs| && fs[i] == f;
      assert KeyOf(f) in KeySet(Dedup(fs));
      var j :| 0 <= j < |Dedup(fs)| && KeyOf(Dedup(fs)[j]) == KeyOf(f);
      var g := Dedup(fs)[j];
      assert g in fs;
      var k :| 0 <= k < |fs| && fs[k] == g;
    }
  }

  /** A list without repeated keys holds each of its fixtures once. */
  lemma {:induction false} DistinctCounts(fs: seq<Fixture>)
    requires NoDuplicateKeys(fs)
    ensures forall f :: multiset(fs)[f] == if f in fs then 1 else 0
    decreases |fs|
  {
    if fs != [] {
      var init, last := fs[..|fs| - 1], fs[|fs| - 1];
      DistinctCounts(init);
      assert fs == init + [last];
      assert forall i :: 0 <= i < |init| ==> init[i] == fs[i];
    }
  }

  /** Two lists without repeated keys that hold the same fixtures are
      permutations of each other. */
  lemma DistinctPermutation(a: seq<Fixture>, b: seq<Fixture>)
    requires NoDuplicateKeys(a) && NoDuplicateKeys(b)
    requires forall f :: f in a <==> f in b
    ensures multiset(a) == multiset(b)
  {
    DistinctCounts(a);
    DistinctCounts(b);
  }

  /** The filter is a case-insensitive search for the team in the two names
      joined by a space: lowering the parts one by one and then joining
      them is lowering the joined names. */
  lemma MentionsJoinedNames(team: string, f: Fixture)
    ensures Mentions(team, f) <==> Contains(Lower(f.home + " " + f.away), Lower(team))
  {
    LowerAppend(f.home, " ");
    LowerAppend(f.home + " ", f.away);
    assert Lower(" ") == " ";
  }

  /** A match whose home team is the configured team always passes the
      team filter. */
  lemma HomeMentionsTeam(team: string, f: Fixture)
    requires IsHome(team, f)
    ensures Mentions(team, f)
  {
    var hay := Lower(f.home) + " " + Lower(f.away);
    assert hay[0..|Lower(team)|] == Lower(team);
    assert OccursAt(hay, Lower(team), 0);
  }
}
