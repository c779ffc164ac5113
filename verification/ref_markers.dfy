/** The inline reference markers of log text. The detail view scans a log's
    content left to right for `[ref:<digits>]` and inserts it into the text
    area as alternating plain pieces and link pieces; each link piece is
    tagged `ref_<digits>` so that clicking it highlights that attachment.

    The scanner below is written out by hand: at each position it tries the
    literal `[ref:`, a run of digits and `]`, and after a match it goes on
    over the rest of the text, as `re.finditer` does for a pattern whose
    matches are never empty. */
module RefMarkers {
  import opened PySemantics

  const MarkerOpen: string := "[ref:"
  const TagPrefix: string := "ref_"

  predicate IsDigit(c: char)
  {
    '0' <= c <= '9'
  }

  predicate AllDigits(s: string)
  {
    forall k | 0 <= k < |s| :: IsDigit(s[k])
  }

  /** `[ref:` starts at `i`, compared character by character. */
  predicate OpensAt(s: string, i: nat)
  {
    && i + 5 <= |s|
    && s[i] == '[' && s[i + 1] == 'r' && s[i + 2] == 'e' && s[i + 3] == 'f' && s[i + 4] == ':'
  }

  /** `t` is exactly one complete marker: `[ref:`, one or more digits, `]`. */
  predicate IsMarker(t: string)
  {
    && |t| >= 7
    && OpensAt(t, 0)
    && t[|t| - 1] == ']'
    && forall k | 5 <= k < |t| - 1 :: IsDigit(t[k])
  }

  /** No stretch of `t` is a complete marker. */
  predicate MarkerFree(t: string)
  {
    forall a, b | 0 <= a <= b <= |t| :: !IsMarker(t[a..b])
  }

  /** One `insert` into the text area: plain text, or a link with its digits. */
  datatype Piece = Plain(text: string) | Link(refId: string)
  {
    /** The characters the piece inserts. */
    function Text(): string
    {
      match this
      case Plain(t) => t
      case Link(d) => MarkerOpen + d + "]"
    }

    /** The tag the piece is inserted with, if any. */
    function Tag(): Option<string>
    {
      match this
      case Plain(_) => None
      case Link(d) => Some(TagPrefix + d)
    }
  }

  /** What the text area holds after inserting `ps` in order. */
  function Concat(ps: seq<Piece>): string
  {
    if |ps| == 0 then "" else ps[0].Text() + Concat(ps[1..])
  }

  /** Plain and link pieces alternate, starting and ending with a plain one. */
  predicate Alternating(ps: seq<Piece>)
  {
    && |ps| % 2 == 1
    && forall k | 0 <= k < |ps| :: ps[k].Plain? <==> k % 2 == 0
  }

  /** Plain pieces hide no marker; link pieces carry a non-empty digit string. */
  predicate PiecesWellFormed(ps: seq<Piece>)
  {
    forall k | 0 <= k < |ps| ::
      match ps[k]
      case Plain(t) => MarkerFree(t)
      case Link(d) => |d| > 0 && AllDigits(d)
  }

  /** The declarative reading of the segmentation: the pieces tile `s` in
      order, alternate plain/link, and no plain piece contains a marker. */
  predicate ValidSegmentation(s: string, ps: seq<Piece>)
  {
    Alternating(ps) && PiecesWellFormed(ps) && Concat(ps) == s
  }

  /** The end of the run of digits that starts at `i`. */
  function DigitRunEnd(s: string, i: nat): (j: nat)
    requires i <= |s|
    ensures i <= j <= |s|
    decreases |s| - i
  {
    if i < |s| && IsDigit(s[i]) then DigitRunEnd(s, i + 1) else i
  }

  /** The end of the marker starting at `i`, if one starts there. */
  function MatchAt(s: string, i: nat): (r: Option<nat>)
    requires i <= |s|
    ensures r.Some? ==> i + 7 <= r.value <= |s|
  {
    if OpensAt(s, i) then
      var j := DigitRunEnd(s, i + 5);
      if j > i + 5 && j < |s| && s[j] == ']' then Some(j + 1) else None
    else
      None
  }

  /** The scan of `re.finditer` over `t`, trying positions from `i` on;
      `t[..i]` is the plain text pending. After a match the scan goes on
      over the text after it, as the pattern has no anchors and looks at
      nothing before a match's start. */
  function Scan(t: string, i: nat): seq<Piece>
    requires i <= |t|
    decreases |t|, |t| - i
  {
    if i == |t| then
      [Plain(t)]
    else
      match MatchAt(t, i)
      case Some(e) => [Plain(t[..i]), Link(t[i + 5..e - 1])] + Scan(t[e..], 0)
      case None => Scan(t, i + 1)
  }

  /** `insert_text_with_links`: the pieces inserted for `content`. */
  function InsertTextWithLinks(content: string): (ps: seq<Piece>)
    ensures Concat(ps) == content
    ensures Alternating(ps)
    ensures PiecesWellFormed(ps)
    ensures forall k | 0 <= k < |ps| && ps[k].Link? ::
      IsMarker(ps[k].Text()) && ps[k].Tag() == Some(TagPrefix + ps[k].refId)
    ensures MarkerFree(content) ==> ps == [Plain(content)]
  {
    ScanValid(content, 0);
    LinksAreMarkers(Scan(content, 0));
    if MarkerFree(content) then
      UniqueSingleton(content);
      Scan(content, 0)
    else
      Scan(content, 0)
  }

  // ---------------------------------------------------------------------
  // Sequence facts

  lemma SubSlice(s: string, lo: nat, hi: nat, a: nat, b: nat)
    requires lo <= hi <= |s| && a <= b <= hi - lo
    ensures s[lo..hi][a..b] == s[lo + a..lo + b]
    ensures s[lo..hi][..b] == s[lo..lo + b]
  {
    assert forall k | 0 <= k < b - a :: s[lo..hi][a..b][k] == s[lo + a..lo + b][k];
    assert forall k | 0 <= k < b :: s[lo..hi][..b][k] == s[lo..lo + b][k];
  }

  lemma SplitSuffix(s: string, a: nat, b: nat)
    requires a <= b <= |s|
    ensures s[a..] == s[a..b] + s[b..]
  {
    assert forall k | 0 <= k < |s| - a :: s[a..][k] == (s[a..b] + s[b..])[k];
  }

  lemma DigitsCons(s: string, i: nat, j: nat)
    requires i < j <= |s| && IsDigit(s[i]) && AllDigits(s[i + 1..j])
    ensures AllDigits(s[i..j])
  {
    forall k | 0 <= k < j - i
      ensures IsDigit(s[i..j][k])
    {
      if k > 0 {
        assert s[i..j][k] == s[i + 1..j][k - 1];
      }
    }
  }

  // ---------------------------------------------------------------------
  // Facts about single markers

  /** The run ends at the first non-digit, and everything before it is a digit. */
  lemma {:induction false} DigitRunEndSpec(s: string, i: nat)
    requires i <= |s|
    ensures AllDigits(s[i..DigitRunEnd(s, i)])
    ensures DigitRunEnd(s, i) == |s| || !IsDigit(s[DigitRunEnd(s, i)])
    decreases |s| - i
  {
    if i < |s| && IsDigit(s[i]) {
      DigitRunEndSpec(s, i + 1);
      DigitsCons(s, i, DigitRunEnd(s, i + 1));
    }
  }

  lemma {:induction false} DigitRunEndAt(s: string, i: nat, j: nat)
    requires i <= j < |s|
    requires AllDigits(s[i..j]) && !IsDigit(s[j])
    ensures DigitRunEnd(s, i) == j
    decreases j - i
  {
    if i < j {
      SubSlice(s, i, j, 1, j - i);
      assert s[i..j][0] == s[i];
      DigitRunEndAt(s, i + 1, j);
    }
  }

  /** The scanner matches only markers: a match spans one complete marker. */
  lemma MatchAtSound(s: string, i: nat)
    requires i <= |s|
    ensures MatchAt(s, i).Some? ==> IsMarker(s[i..MatchAt(s, i).value])
  {
    if MatchAt(s, i).Some? {
      var j := DigitRunEnd(s, i + 5);
      assert MatchAt(s, i) == Some(j + 1) && j < |s|;
      DigitRunEndSpec(s, i + 5);
      var d := s[i + 5..j];
      var t := s[i..j + 1];
      forall k | 5 <= k < |t| - 1
        ensures IsDigit(t[k])
      {
        assert t[k] == d[k - 5];
        assert IsDigit(d[k - 5]);
      }
    }
  }

  /** The scanner finds every marker: a marker starting at `i` is the match there. */
  lemma MatchAtComplete(s: string, i: nat, e: nat)
    requires i <= e <= |s| && IsMarker(s[i..e])
    ensures MatchAt(s, i) == Some(e)
  {
    var t := s[i..e];
    assert OpensAt(s, i) by {
      assert t[0] == s[i] && t[1] == s[i + 1] && t[2] == s[i + 2] && t[3] == s[i + 3] && t[4] == s[i + 4];
    }
    var d := s[i + 5..e - 1];
    forall k | 0 <= k < |d|
      ensures IsDigit(d[k])
    {
      assert d[k] == t[k + 5];
    }
    assert s[e - 1] == t[|t| - 1];
    DigitRunEndAt(s, i + 5, e - 1);
  }

  /** Only the first character of a marker is `[`. */
  lemma MarkerInteriorHasNoOpen(t: string, j: nat)
    requires 1 <= j < |t|
    ensures IsMarker(t) ==> t[j] != '['
  {
  }

  lemma LinkTextIsMarker(d: string)
    requires |d| > 0 && AllDigits(d)
    ensures IsMarker(Link(d).Text())
  {
    var t := Link(d).Text();
    forall k | 5 <= k < |t| - 1
      ensures IsDigit(t[k])
    {
      assert t[k] == d[k - 5];
    }
  }

  lemma LinksAreMarkers(ps: seq<Piece>)
    requires PiecesWellFormed(ps)
    ensures forall k | 0 <= k < |ps| && ps[k].Link? :: IsMarker(ps[k].Text())
  {
    forall k | 0 <= k < |ps| && ps[k].Link?
      ensures IsMarker(ps[k].Text())
    {
      LinkTextIsMarker(ps[k].refId);
    }
  }

  /** A stretch of `s` in which no match starts is free of markers. */
  lemma NoMatchMeansMarkerFree(s: string, lo: nat, hi: nat)
    requires lo <= hi <= |s|
    requires forall k | lo <= k < hi :: MatchAt(s, k).None?
    ensures MarkerFree(s[lo..hi])
  {
    forall a, b | 0 <= a <= b <= hi - lo
      ensures !IsMarker(s[lo..hi][a..b])
    {
      if IsMarker(s[lo..hi][a..b]) {
        SubSlice(s, lo, hi, a, b);
        MatchAtComplete(s, lo + a, lo + b);
        assert false;
      }
    }
  }

  // ---------------------------------------------------------------------
  // The scan meets the declarative reading

  lemma ConcatPair(p: Piece, q: Piece, rest: seq<Piece>)
    ensures Concat([p, q] + rest) == p.Text() + q.Text() + Concat(rest)
  {
    assert ([p, q] + rest)[1..] == [q] + rest;
    assert ([q] + rest)[1..] == rest;
  }

  lemma AlternatingPair(p: Piece, q: Piece, rest: seq<Piece>)
    requires p.Plain? && q.Link? && Alternating(rest)
    ensures Alternating([p, q] + rest)
  {
    var ps := [p, q] + rest;
    forall k | 2 <= k < |ps|
      ensures ps[k].Plain? <==> k % 2 == 0
    {
      assert ps[k] == rest[k - 2];
      assert k % 2 == (k - 2) % 2;
    }
  }

  /** The link piece cut from a marker inserts exactly that marker. */
  lemma MarkerIsLinkText(s: string, i: nat, e: nat)
    requires i <= e <= |s| && IsMarker(s[i..e])
    ensures |s[i + 5..e - 1]| > 0 && AllDigits(s[i + 5..e - 1])
    ensures Link(s[i + 5..e - 1]).Text() == s[i..e]
  {
    var t := s[i..e];
    var d := s[i + 5..e - 1];
    forall k | 0 <= k < |d|
      ensures IsDigit(d[k])
    {
      assert d[k] == t[k + 5];
    }
    var u := Link(d).Text();
    assert |u| == |t|;
    forall k | 0 <= k < |t|
      ensures u[k] == t[k]
    {
      if 5 <= k < |t| - 1 {
        assert u[k] == d[k - 5];
      }
    }
  }

  /** A marker-free plain piece and a link put in front of a valid segmentation. */
  lemma PrependValid(p: string, d: string, rest: seq<Piece>, r: string)
    requires MarkerFree(p) && |d| > 0 && AllDigits(d)
    requires ValidSegmentation(r, rest)
    ensures ValidSegmentation(p + Link(d).Text() + r, [Plain(p), Link(d)] + rest)
  {
    var ps := [Plain(p), Link(d)] + rest;
    ConcatPair(Plain(p), Link(d), rest);
    AlternatingPair(Plain(p), Link(d), rest);
    forall k | 2 <= k < |ps|
      ensures ps[k] == rest[k - 2]
    {
    }
  }

  lemma SingletonValid(s: string)
    requires MarkerFree(s)
    ensures ValidSegmentation(s, [Plain(s)])
  {
    assert Concat([Plain(s)]) == s;
  }

  /** At a match the scan emits the pending plain text and the link, and
      goes on over the text after the match. */
  lemma ScanMatchStep(t: string, i: nat, e: nat)
    requires i < |t| && MatchAt(t, i) == Some(e)
    ensures Scan(t, i) == [Plain(t[..i]), Link(t[i + 5..e - 1])] + Scan(t[e..], 0)
  {
  }

  /** Positions without a match can be skipped without changing the scan. */
  lemma {:induction false} ScanSkip(t: string, i: nat, m: nat)
    requires i <= m <= |t|
    requires forall k | i <= k < m :: MatchAt(t, k).None?
    ensures Scan(t, i) == Scan(t, m)
    decreases m - i
  {
    if i < m {
      ScanSkip(t, i + 1, m);
    }
  }

  /** The scan from `i`, when no match starts before `i`, meets the
      declarative reading. */
  lemma {:induction false} ScanValid(t: string, i: nat)
    requires i <= |t|
    requires forall k | 0 <= k < i :: MatchAt(t, k).None?
    ensures ValidSegmentation(t, Scan(t, i))
    decreases |t|, |t| - i
  {
    if i == |t| {
      NoMatchMeansMarkerFree(t, 0, |t|);
      assert t[0..|t|] == t;
      SingletonValid(t);
    } else {
      match MatchAt(t, i)
      case Some(e) =>
        ScanValid(t[e..], 0);
        ScanValidMatchCase(t, i, e);
      case None =>
        ScanValid(t, i + 1);
    }
  }

  /** The step of `ScanValid` at a match, given the segmentation after it. */
  lemma ScanValidMatchCase(t: string, i: nat, e: nat)
    requires i < |t| && MatchAt(t, i) == Some(e)
    requires forall k | 0 <= k < i :: MatchAt(t, k).None?
    requires ValidSegmentation(t[e..], Scan(t[e..], 0))
    ensures ValidSegmentation(t, Scan(t, i))
  {
    NoMatchMeansMarkerFree(t, 0, i);
    assert t[0..i] == t[..i];
    MatchAtSound(t, i);
    MarkerIsLinkText(t, i, e);
    SplitSuffix(t, i, e);
    assert t == t[..i] + t[i..];
    PrependValid(t[..i], t[i + 5..e - 1], Scan(t[e..], 0), t[e..]);
    ScanMatchStep(t, i, e);
  }

  // ---------------------------------------------------------------------
  // The declarative reading determines the scan

  /** A marker-free text is scanned as one plain piece. */
  lemma UniqueSingleton(t: string)
    requires MarkerFree(t)
    ensures Scan(t, 0) == [Plain(t)]
  {
    forall k | 0 <= k < |t|
      ensures MatchAt(t, k).None?
    {
      MatchAtSound(t, k);
    }
    ScanSkip(t, 0, |t|);
  }

  /** No match starts in a marker-free start of the text that a marker follows. */
  lemma NoMatchBeforeMarker(s: string, m: nat, e: nat, k: nat)
    requires k < m <= e <= |s| && MarkerFree(s[..m]) && IsMarker(s[m..e])
    ensures MatchAt(s, k).None?
  {
    MatchAtSound(s, k);
    forall f | k <= f <= |s|
      ensures !IsMarker(s[k..f])
    {
      if f <= m {
        assert s[k..f] == s[..m][k..f];
      } else {
        assert s[k..f][m - k] == s[m] == s[m..e][0];
        MarkerInteriorHasNoOpen(s[k..f], m - k);
      }
    }
  }

  /** A scan that finds its first match at `m` emits the text before it and
      the match, and goes on after the match. */
  lemma ScanToFirstMatch(s: string, m: nat, e: nat)
    requires m < |s| && MatchAt(s, m) == Some(e)
    requires forall k | 0 <= k < m :: MatchAt(s, k).None?
    ensures Scan(s, 0) == [Plain(s[..m]), Link(s[m + 5..e - 1])] + Scan(s[e..], 0)
  {
    ScanSkip(s, 0, m);
    ScanMatchStep(s, m, e);
  }

  /** The scan of a marker-free start of the text followed by a marker emits
      that start and the marker, and goes on after the marker. */
  lemma ScanAtMarker(s: string, m: nat, e: nat)
    requires m <= e <= |s| && MarkerFree(s[..m]) && IsMarker(s[m..e])
    ensures Scan(s, 0) == [Plain(s[..m]), Link(s[m + 5..e - 1])] + Scan(s[e..], 0)
  {
    forall k | 0 <= k < m
      ensures MatchAt(s, k).None?
    {
      NoMatchBeforeMarker(s, m, e, k);
    }
    MatchAtComplete(s, m, e);
    ScanToFirstMatch(s, m, e);
  }

  /** The three parts of a concatenation, cut back out of it. */
  lemma ConcatParts(t: string, p: string, q: string, r: string)
    requires t == p + q + r
    ensures t[..|p|] == p && t[|p|..|p| + |q|] == q && t[|p| + |q|..] == r
  {
    assert forall k | 0 <= k < |p| :: t[..|p|][k] == p[k];
    assert forall k | 0 <= k < |q| :: t[|p|..|p| + |q|][k] == q[k];
    assert forall k | 0 <= k < |r| :: t[|p| + |q|..][k] == r[k];
  }

  /** The scan of `p + marker + r` with `p` marker-free starts with `p` and
      the marker, and goes on as the scan of `r`. */
  lemma ScanFirstMarker(p: string, d: string, r: string)
    requires MarkerFree(p) && |d| > 0 && AllDigits(d)
    ensures Scan(p + Link(d).Text() + r, 0) == [Plain(p), Link(d)] + Scan(r, 0)
  {
    var link := Link(d).Text();
    var s := p + link + r;
    var m := |p|;
    var e := m + |link|;
    ConcatParts(s, p, link, r);
    LinkTextIsMarker(d);
    ScanAtMarker(s, m, e);
    SubSlice(s, m, e, 5, |link| - 1);
    assert s[m + 5..e - 1] == link[5..|link| - 1] == d;
  }

  /** Taking the first plain piece and link off a valid segmentation leaves one. */
  lemma ValidTail(s: string, ps: seq<Piece>)
    requires ValidSegmentation(s, ps) && |ps| > 1
    ensures ps[0].Plain? && ps[1].Link? && ps == [ps[0], ps[1]] + ps[2..]
    ensures MarkerFree(ps[0].text) && |ps[1].refId| > 0 && AllDigits(ps[1].refId)
    ensures ValidSegmentation(Concat(ps[2..]), ps[2..])
    ensures s == ps[0].text + ps[1].Text() + Concat(ps[2..])
  {
    var rest := ps[2..];
    assert ps == [ps[0], ps[1]] + rest;
    assert Alternating(rest) by {
      forall k | 0 <= k < |rest|
        ensures rest[k].Plain? <==> k % 2 == 0
      {
        assert rest[k] == ps[k + 2];
        assert k % 2 == (k + 2) % 2;
      }
    }
    assert PiecesWellFormed(rest) by {
      forall k | 0 <= k < |rest|
        ensures rest[k] == ps[k + 2]
      {
      }
    }
    ConcatPair(ps[0], ps[1], rest);
  }

  /** Any segmentation meeting the declarative reading is the scan's:
      together with `ScanValid`, the scan is characterised exactly. */
  lemma {:induction false} SegmentationUnique(s: string, ps: seq<Piece>)
    requires ValidSegmentation(s, ps)
    ensures ps == Scan(s, 0)
    decreases |ps|
  {
    if |ps| == 1 {
      assert ps[0].Plain?;
      var t := ps[0].text;
      assert Concat(ps) == t + Concat(ps[1..]);
      assert |ps[1..]| == 0;
      assert s == t + "" == t;
      assert ps == [Plain(t)];
      UniqueSingleton(t);
    } else {
      ValidTail(s, ps);
      var p, d, rest := ps[0].text, ps[1].refId, ps[2..];
      assert ps[0] == Plain(p) && ps[1] == Link(d);
      SegmentationUnique(Concat(rest), rest);
      ScanFirstMarker(p, d, Concat(rest));
    }
  }
}
