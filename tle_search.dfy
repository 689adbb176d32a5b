/**
 Search of a TLE file (two-line element sets, each preceded by a name line,
 so three lines per satellite) for one satellite, by a fragment of its name
 or by its catalog number, as in doppler.py's search_for_TLE.
 */
module TleSearch {
  import opened PyText

  /** One satellite's record: name line, then element lines 1 and 2. */
  datatype Tle = Tle(name: string, line1: string, line2: string)

  /** The search's outcome: a record, `(None, None, None)`, or Python's IndexError. */
  datatype SearchResult = Found(tle: Tle) | NotFound | IndexError

  /** How one complete record answers the query; `Fault` is an IndexError raised while testing it. */
  datatype Verdict = Hit | Miss | Fault

  /**
   The test applied to one record. For "name" the search text must occur in
   the name line; for "catalog" it must equal the field after the first
   space of line 2, and a line 2 without a space raises IndexError; any
   other field matches nothing.
   */
  function Judge(searchText: string, searchField: string, name: string, line2: string): (v: Verdict)
    ensures v == Fault <==> searchField == "catalog" && ' ' !in line2
    ensures searchField == "name" ==> (v == Hit <==> Contains(name, searchText))
    ensures searchField == "catalog" && ' ' in line2 ==> (v == Hit <==> SplitOn(line2, ' ')[1] == searchText)
    ensures v == Hit ==> searchField == "name" || searchField == "catalog"
  {
    if searchField == "name" then
      if Contains(name, searchText) then Hit else Miss
    else if searchField == "catalog" then
      var fields := SplitOn(line2, ' ');
      if |fields| < 2 then Fault
      else if searchText == fields[1] then Hit else Miss
    else Miss
  }

  /** Verdict on the `g`-th record of `lines`, which must be complete. */
  function RecordVerdict(searchText: string, searchField: string, lines: seq<string>, g: nat): Verdict
    requires 3 * g + 2 < |lines|
  {
    Judge(searchText, searchField, lines[3 * g], lines[3 * g + 2])
  }

  /** The records before the `g`-th are all complete and none matches. */
  predicate MissBefore(searchText: string, searchField: string, lines: seq<string>, g: nat)
  {
    forall h: nat :: h < g ==> 3 * h + 2 < |lines| && RecordVerdict(searchText, searchField, lines, h) == Miss
  }

  /** The `g`-th record is the first that matches. */
  predicate FirstHitAt(searchText: string, searchField: string, lines: seq<string>, g: nat)
  {
    && MissBefore(searchText, searchField, lines, g)
    && 3 * g + 2 < |lines|
    && RecordVerdict(searchText, searchField, lines, g) == Hit
  }

  /** The search reaches the `g`-th record without a match and fails there: incomplete record or faulty test. */
  predicate FailsAt(searchText: string, searchField: string, lines: seq<string>, g: nat)
  {
    && MissBefore(searchText, searchField, lines, g)
    && 3 * g < |lines|
    && (3 * g + 2 >= |lines| || RecordVerdict(searchText, searchField, lines, g) == Fault)
  }

  /** The record made of lines `3g`, `3g+1`, `3g+2`. */
  function RecordAt(lines: seq<string>, g: nat): Tle
    requires 3 * g + 2 < |lines|
  {
    Tle(lines[3 * g], lines[3 * g + 1], lines[3 * g + 2])
  }

  /** A first match and a failure cannot both be reached. */
  lemma HitExcludesFailure(searchText: string, searchField: string, lines: seq<string>, g: nat, h: nat)
    requires FirstHitAt(searchText, searchField, lines, g)
    ensures !FailsAt(searchText, searchField, lines, h)
  {
    if h < g {
      assert 3 * h + 2 < |lines| && RecordVerdict(searchText, searchField, lines, h) == Miss;
    } else if g < h {
      assert RecordVerdict(searchText, searchField, lines, g) != Miss;
    }
  }

  /**
   Splits the text into lines and tests the records at line offsets 0, 3,
   6, ... in order, returning the first that matches; reading an
   incomplete record, or a catalog test on a line 2 without a space, raises
   IndexError before any later record is looked at.
   */
  method SearchForTle(searchText: string, searchField: string, tles: string) returns (r: SearchResult)
    ensures r.Found? ==> IsFirstMatch(searchText, searchField, SplitLines(tles), r.tle)
    ensures r.Found? <==> SomeHit(searchText, searchField, SplitLines(tles))
    ensures r.IndexError? <==> SomeFailure(searchText, searchField, SplitLines(tles))
    ensures r.NotFound? <==> AllMiss(searchText, searchField, SplitLines(tles))
  {
    var lines := SplitLines(tles);
    var l := 0;
    ghost var g: nat := 0;
    while l < |lines|
      invariant l == 3 * g && l <= |lines|
      invariant MissBefore(searchText, searchField, lines, g)
    {
      if l + 2 >= |lines| {
        assert FailsAt(searchText, searchField, lines, g);
        FailureOutcome(searchText, searchField, lines, g);
        return IndexError;
      }
      var name := lines[l];
      var line1 := lines[l + 1];
      var line2 := lines[l + 2];
      if searchField == "name" {
        if Contains(name, searchText) {
          assert FirstHitAt(searchText, searchField, lines, g);
          HitOutcome(searchText, searchField, lines, g);
          assert Tle(name, line1, line2) == RecordAt(lines, g);
          return Found(Tle(name, line1, line2));
        }
      } else if searchField == "catalog" {
        var fields := SplitOn(line2, ' ');
        if |fields| < 2 {
          assert FailsAt(searchText, searchField, lines, g);
          FailureOutcome(searchText, searchField, lines, g);
          return IndexError;
        }
        if searchText == fields[1] {
          assert FirstHitAt(searchText, searchField, lines, g);
          HitOutcome(searchText, searchField, lines, g);
          assert Tle(name, line1, line2) == RecordAt(lines, g);
          return Found(Tle(name, line1, line2));
        }
      }
      assert RecordVerdict(searchText, searchField, lines, g) == Miss;
      l, g := l + 3, g + 1;
    }
    assert |lines| == 3 * g && |lines| / 3 == g;
    MissOutcome(searchText, searchField, lines);
    return NotFound;
  }

  /** `tle` is the first record that matches. */
  ghost predicate IsFirstMatch(searchText: string, searchField: string, lines: seq<string>, tle: Tle)
  {
    exists g: nat :: FirstHitAt(searchText, searchField, lines, g) && tle == RecordAt(lines, g)
  }

  /** Some record is the first match. */
  ghost predicate SomeHit(searchText: string, searchField: string, lines: seq<string>)
  {
    exists g: nat :: FirstHitAt(searchText, searchField, lines, g)
  }

  /** The search fails at some record. */
  ghost predicate SomeFailure(searchText: string, searchField: string, lines: seq<string>)
  {
    exists g: nat :: FailsAt(searchText, searchField, lines, g)
  }

  /** All lines form complete records and none of them matches. */
  predicate AllMiss(searchText: string, searchField: string, lines: seq<string>)
  {
    |lines| % 3 == 0 && MissBefore(searchText, searchField, lines, |lines| / 3)
  }

  /** A first match excludes both other outcomes. */
  lemma HitOutcome(searchText: string, searchField: string, lines: seq<string>, g: nat)
    requires FirstHitAt(searchText, searchField, lines, g)
    ensures SomeHit(searchText, searchField, lines)
    ensures IsFirstMatch(searchText, searchField, lines, RecordAt(lines, g))
    ensures !SomeFailure(searchText, searchField, lines)
    ensures !AllMiss(searchText, searchField, lines)
  {
    forall h: nat ensures !FailsAt(searchText, searchField, lines, h) {
      HitExcludesFailure(searchText, searchField, lines, g, h);
    }
    if |lines| % 3 == 0 {
      assert g < |lines| / 3;
    }
  }

  /** A failure excludes both other outcomes. */
  lemma FailureOutcome(searchText: string, searchField: string, lines: seq<string>, g: nat)
    requires FailsAt(searchText, searchField, lines, g)
    ensures !SomeHit(searchText, searchField, lines)
    ensures SomeFailure(searchText, searchField, lines)
    ensures !AllMiss(searchText, searchField, lines)
  {
    forall h: nat ensures !FirstHitAt(searchText, searchField, lines, h) {
      if FirstHitAt(searchText, searchField, lines, h) {
        HitExcludesFailure(searchText, searchField, lines, h, g);
      }
    }
    if |lines| % 3 == 0 {
      assert g < |lines| / 3;
    }
  }

  /** Complete records that all miss exclude both other outcomes. */
  lemma MissOutcome(searchText: string, searchField: string, lines: seq<string>)
    requires AllMiss(searchText, searchField, lines)
    ensures !SomeHit(searchText, searchField, lines)
    ensures !SomeFailure(searchText, searchField, lines)
  {
  }
}
