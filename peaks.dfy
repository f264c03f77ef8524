/**
 * `parse_peaks` of the import script: a hike record's single
 * `peak_elevation` or its list `peak_elevations` ("Green Mountain: 8,144';
 * Bear Peak: 8,461'") becomes a list of (optional name, elevation) pairs.
 */
module Peaks {
  import opened Options
  import opened Text
  import opened Scan
  import opened ImportData

  /** One peak: its name (absent for a single-peak hike) and its elevation in feet. */
  datatype Peak = Peak(name: Option<string>, elevation: nat)

  /** One match of `([^:;]+):\s*(\d{1,2},?\d{3})`: the two groups and the index after the match. */
  datatype PeakMatch = PeakMatch(name: string, elevation: string, end: nat)

  predicate IsNameChar(c: char) {
    c != ':' && c != ';'
  }

  /** End of the run of name characters from `p` on (the greedy `[^:;]+`). */
  function NameEnd(s: string, p: nat): (q: nat)
    requires p <= |s|
    ensures p <= q <= |s|
    ensures forall k :: p <= k < q ==> IsNameChar(s[k])
    ensures q == |s| || !IsNameChar(s[q])
    decreases |s| - p
  {
    if p < |s| && IsNameChar(s[p]) then NameEnd(s, p + 1) else p
  }

  /**
   * The match at `p`, if any. Giving characters back from the name group
   * never helps, because the character after a shorter name would be a
   * name character and not the required `:`; nor does giving back spaces,
   * since the elevation must start with a digit.
   */
  function PeakMatchAt(s: string, p: nat): (r: Option<PeakMatch>)
    requires p <= |s|
    ensures r.Some? ==> p + 6 <= r.value.end <= |s|
    ensures r.Some? ==> r.value.name != [] && forall k :: 0 <= k < |r.value.name| ==> IsNameChar(r.value.name[k])
  {
    var q := NameEnd(s, p);
    if p < q < |s| && s[q] == ':' then
      var d := SkipSpaces(s, q + 1);
      match ElevationAt(s, d)
      case None => None
      case Some(span) => Some(PeakMatch(s[p..q], s[d..span.end], span.end))
    else None
  }

  /** `re.findall` from `p` on: after a match the scan resumes where the match ended. */
  function FindAllPeaks(s: string, p: nat): (r: seq<PeakMatch>)
    requires p <= |s|
    ensures forall j :: 0 <= j < |r| ==> p + 6 * (j + 1) <= r[j].end <= |s|
    ensures forall j :: 0 <= j < |r| - 1 ==> r[j].end + 6 <= r[j + 1].end
    decreases |s| - p
  {
    if p == |s| then []
    else
      match PeakMatchAt(s, p)
      case Some(m) => [m] + FindAllPeaks(s, m.end)
      case None => FindAllPeaks(s, p + 1)
  }

  /** The peak a match contributes: the stripped name and the parsed elevation. */
  function PeakOf(m: PeakMatch): Peak {
    Peak(Some(Strip(m.name)), ParseElevation(m.elevation))
  }

  /** The peaks of a list of matches, in match order. */
  function PeaksOfMatches(ms: seq<PeakMatch>): (r: seq<Peak>)
    ensures |r| == |ms|
  {
    if ms == [] then [] else PeaksOfMatches(ms[..|ms| - 1]) + [PeakOf(ms[|ms| - 1])]
  }

  /** The peaks `parse_peaks` returns for a hike record. */
  function PeaksOf(hike: map<string, string>): (r: seq<Peak>)
    ensures "peak_elevation" in hike ==> |r| == 1
    ensures forall j :: 0 <= j < |r| ==> (r[j].name.None? <==> "peak_elevation" in hike)
  {
    if "peak_elevation" in hike then [Peak(None, ParseElevation(hike["peak_elevation"]))]
    else if "peak_elevations" in hike then
      PeaksOfMatchesNamed(FindAllPeaks(hike["peak_elevations"], 0));
      PeaksOfMatches(FindAllPeaks(hike["peak_elevations"], 0))
    else []
  }

  /** `parse_peaks`: one entry for a single peak, otherwise one per match, appended in a loop. */
  method ParsePeaks(hike: map<string, string>) returns (peaks: seq<Peak>)
    ensures peaks == PeaksOf(hike)
  {
    peaks := [];
    if "peak_elevation" in hike {
      var elevation := ParseElevation(hike["peak_elevation"]);
      peaks := peaks + [Peak(None, elevation)];
    } else if "peak_elevations" in hike {
      var peakText := hike["peak_elevations"];
      var peakMatches := FindAllPeaks(peakText, 0);
      var i := 0;
      while i < |peakMatches|
        invariant 0 <= i <= |peakMatches|
        invariant peaks == PeaksOfMatches(peakMatches[..i])
      {
        assert peakMatches[..i + 1][..i] == peakMatches[..i];
        var name := peakMatches[i].name;
        var elev := peakMatches[i].elevation;
        peaks := peaks + [Peak(Some(Strip(name)), ParseElevation(elev))];
        i := i + 1;
      }
      assert peakMatches[..i] == peakMatches;
    }
  }

  /** Every match takes at least six characters: a name, the colon and four digits. */
  lemma {:induction false} FindAllPeaksBound(s: string, p: nat)
    requires p <= |s|
    ensures 6 * |FindAllPeaks(s, p)| <= |s| - p
    decreases |s| - p
  {
    if p < |s| {
      match PeakMatchAt(s, p)
      case Some(m) => FindAllPeaksBound(s, m.end);
      case None => FindAllPeaksBound(s, p + 1);
    }
  }

  /** Every name found is non-empty and free of `:` and `;`. */
  lemma {:induction false} FindAllPeaksNames(s: string, p: nat)
    requires p <= |s|
    ensures forall j :: 0 <= j < |FindAllPeaks(s, p)| ==>
      FindAllPeaks(s, p)[j].name != [] && ':' !in FindAllPeaks(s, p)[j].name && ';' !in FindAllPeaks(s, p)[j].name
    decreases |s| - p
  {
    if p < |s| {
      match PeakMatchAt(s, p)
      case Some(m) =>
        FindAllPeaksNames(s, m.end);
        assert ':' !in m.name && ';' !in m.name by {
          forall k | 0 <= k < |m.name| ensures m.name[k] != ':' && m.name[k] != ';' {
            assert IsNameChar(m.name[k]);
          }
        }
      case None => FindAllPeaksNames(s, p + 1);
    }
  }

  /**
   * A single `peak_elevation` wins over `peak_elevations`, a record with
   * neither has no peaks, and the number of peaks listed is bounded by the
   * length of the text.
   */
  lemma PeaksShape(hike: map<string, string>)
    ensures "peak_elevation" in hike ==> |PeaksOf(hike)| == 1 && PeaksOf(hike)[0].name.None?
    ensures "peak_elevation" !in hike && "peak_elevations" !in hike ==> PeaksOf(hike) == []
    ensures "peak_elevation" !in hike && "peak_elevations" in hike ==>
      6 * |PeaksOf(hike)| <= |hike["peak_elevations"]|
      && forall j :: 0 <= j < |PeaksOf(hike)| ==> PeaksOf(hike)[j].name.Some?
  {
    if "peak_elevation" !in hike && "peak_elevations" in hike {
      PeaksOfMatchesNamed(FindAllPeaks(hike["peak_elevations"], 0));
    }
    if "peak_elevation" !in hike && "peak_elevations" in hike {
      FindAllPeaksBound(hike["peak_elevations"], 0);
    }
  }

  lemma PeaksOfMatchesNamed(ms: seq<PeakMatch>)
    ensures forall j :: 0 <= j < |ms| ==> PeaksOfMatches(ms)[j] == PeakOf(ms[j])
  {
    forall j | 0 <= j < |ms| ensures PeaksOfMatches(ms)[j] == PeakOf(ms[j]) {
      PeaksOfMatchesAt(ms, j);
    }
  }

  /** The `j`-th peak comes from the `j`-th match. */
  lemma {:induction false} PeaksOfMatchesAt(ms: seq<PeakMatch>, j: nat)
    requires j < |ms|
    ensures PeaksOfMatches(ms)[j] == PeakOf(ms[j])
    decreases |ms|
  {
    var init := ms[..|ms| - 1];
    var front, last := PeaksOfMatches(init), PeakOf(ms[|ms| - 1]);
    assert PeaksOfMatches(ms) == front + [last];
    assert |front| == |ms| - 1;
    if j < |init| {
      PeaksOfMatchesAt(init, j);
      assert init[j] == ms[j];
      assert (front + [last])[j] == front[j];
    } else {
      assert (front + [last])[j] == last;
    }
  }


  /** `name: n` matches as a whole, with the name and the numeral as its groups. */
  lemma PeakMatchOfNumeral(name: string, n: nat)
    requires name != [] && ':' !in name && ';' !in name
    requires 4 <= |NatString(n)| <= 5
    ensures PeakMatchAt(name + ": " + NatString(n), 0)
      == Some(PeakMatch(name, NatString(n), |name + ": " + NatString(n)|))
  {
    var w := NatString(n);
    var s := name + ": " + w;
    var q := |name|;
    assert NameEnd(s, 0) == q by {
      forall k | 0 <= k < q ensures IsNameChar(s[k]) {
        assert s[k] == name[k];
        assert name[k] in name;
      }
      assert s[q] == ':';
    }
    assert q < |s| && s[q] == ':';
    assert SkipSpaces(s, q + 1) == q + 2 by {
      assert s[q + 1] == ' ';
      assert q + 2 < |s| && s[q + 2] == w[0];
    }
    assert ElevationAt(s, q + 2) == Some(Span(q + 2, |s|)) by {
      ElevationAtNumeral(name + ": ", n, "");
      assert name + ": " + w + "" == s;
    }
    assert s[0..q] == name;
    assert s[q + 2..|s|] == w;
  }

  /** A match that spans the whole text is the only one. */
  lemma FindAllWhole(s: string, m: PeakMatch)
    requires PeakMatchAt(s, 0) == Some(m) && m.end == |s|
    ensures FindAllPeaks(s, 0) == [m]
  {
  }

  /** The peaks of a list text with exactly one match. */
  lemma PeaksOfOneMatch(s: string, m: PeakMatch)
    requires FindAllPeaks(s, 0) == [m]
    ensures PeaksOf(map["peak_elevations" := s]) == [PeakOf(m)]
  {
    var hike := map["peak_elevations" := s];
    assert "peak_elevation" !in hike;
    assert [m][..0] == [];
  }

  /** `name: n` reads back as the stripped name with elevation `n`. */
  lemma PeakRoundTrip(name: string, n: nat)
    requires name != [] && ':' !in name && ';' !in name
    requires 4 <= |NatString(n)| <= 5
    ensures PeaksOf(map["peak_elevations" := name + ": " + NatString(n)]) == [Peak(Some(Strip(name)), n)]
  {
    var w := NatString(n);
    var m := PeakMatch(name, w, |name + ": " + w|);
    PeakMatchOfNumeral(name, n);
    FindAllWhole(name + ": " + w, m);
    assert PeakOf(m) == Peak(Some(Strip(name)), n) by {
      assert ParseElevation(w) == n by {
        ElevationRoundTrip(n, "");
        assert w + "" == w;
      }
    }
    PeaksOfOneMatch(name + ": " + w, m);
  }
}
