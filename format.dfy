/** Display helpers of src/utils/format.js: the resolution label looked up in the threshold
    table of src/utils/constants.js, the file extension, keyword highlighting and the relative
    time text. */
module Format {
  import opened Wrappers
  import opened Strings

  // ---------------------------------------------------------------------------------------
  // Resolution label

  /** One row of a threshold table. */
  datatype Threshold = Threshold(minWidth: int, text: string, kind: string)

  /** `RESOLUTION_THRESHOLDS`, highest row first. */
  const RuntimeThresholds: seq<Threshold> := [
    Threshold(5120, "5K+", "danger"),
    Threshold(3841, "4K+", "warning"),
    Threshold(3840, "4K", "success"),
    Threshold(2560, "2K", "info"),
    Threshold(1920, "超清", "primary"),
    Threshold(1280, "高清", "secondary"),
    Threshold(0, "标清", "secondary")
  ]

  /** The label record `getResolutionLabel` returns. */
  datatype Label = Label(width: int, height: int, text: string, kind: string)

  /** Row `k` is the first whose `minWidth` the long side reaches. */
  ghost predicate FirstReached(table: seq<Threshold>, side: int, k: int) {
    0 <= k < |table| && table[k].minWidth <= side
    && forall j :: 0 <= j < k ==> side < table[j].minWidth
  }

  /** The `for … of` search: the position of the first row whose `minWidth` is at most `side`. */
  function FindThreshold(table: seq<Threshold>, side: int): (r: Option<nat>)
    ensures r.Some? ==> FirstReached(table, side, r.value)
    ensures r.None? <==> forall j :: 0 <= j < |table| ==> side < table[j].minWidth
  {
    if table == [] then None
    else if table[0].minWidth <= side then Some(0)
    else
      var k := FindThreshold(table[1..], side);
      if k.Some? then Some(k.value + 1) else None
  }

  function Max(a: int, b: int): int {
    if a >= b then a else b
  }

  /** `getResolutionLabel(width, height)`: the width and height echoed, with the label and
      type of the first row the long side reaches, or `标清`/`secondary` when none is. */
  function GetResolutionLabel(width: int, height: int): (r: Label)
    ensures r.width == width && r.height == height
    ensures forall k :: FirstReached(RuntimeThresholds, Max(width, height), k) ==>
      r.text == RuntimeThresholds[k].text && r.kind == RuntimeThresholds[k].kind
    ensures Max(width, height) < 0 ==> r.text == "标清" && r.kind == "secondary"
  {
    match FindThreshold(RuntimeThresholds, Max(width, height))
    case Some(k) => Label(width, height, RuntimeThresholds[k].text, RuntimeThresholds[k].kind)
    case None => Label(width, height, "标清", "secondary")
  }

  /** The final fallback is taken only for a negative long side: the last row starts at 0. */
  lemma FallbackOnlyWhenNegative(width: int, height: int)
    ensures FindThreshold(RuntimeThresholds, Max(width, height)).None? <==> Max(width, height) < 0
  {
    var t := RuntimeThresholds;
    if Max(width, height) >= 0 {
      assert t[6].minWidth <= Max(width, height);
    }
  }

  /** The thresholds of the runtime table at their boundaries. */
  lemma ResolutionBoundaries()
    ensures GetResolutionLabel(5120, 10).text == "5K+"
    ensures GetResolutionLabel(10, 5119).text == "4K+"
    ensures GetResolutionLabel(3841, 2160).text == "4K+"
    ensures GetResolutionLabel(3840, 2160).text == "4K" && GetResolutionLabel(3840, 2160).kind == "success"
    ensures GetResolutionLabel(2560, 1440).text == "2K"
    ensures GetResolutionLabel(1920, 1080).text == "超清"
    ensures GetResolutionLabel(1280, 720).text == "高清"
    ensures GetResolutionLabel(1279, 720).text == "标清"
  {
    var t := RuntimeThresholds;
    assert FirstReached(t, 5120, 0);
    assert FirstReached(t, 5119, 1);
    assert FirstReached(t, 3841, 1);
    assert FirstReached(t, 3840, 2);
    assert FirstReached(t, 2560, 3);
    assert FirstReached(t, 1920, 4);
    assert FirstReached(t, 1280, 5);
    assert FirstReached(t, 1279, 6);
  }

  // ---------------------------------------------------------------------------------------
  // File extension

  ghost predicate NoDot(s: string) {
    forall i :: 0 <= i < |s| ==> s[i] != '.'
  }

  /** Where the text after the last `.` starts: just past that dot, or 0 without one. */
  function ExtensionStart(filename: string): (k: nat)
    ensures k <= |filename|
    ensures NoDot(filename[k..])
    ensures k == 0 || filename[k - 1] == '.'
  {
    if filename == [] then 0
    else if filename[|filename| - 1] == '.' then |filename|
    else
      var head := filename[..|filename| - 1];
      var k := ExtensionStart(head);
      assert filename[k..] == head[k..] + [filename[|filename| - 1]];
      k
  }

  /** `filename.split('.').pop().toLowerCase()`: the lowercased text after the last `.`, or the
      whole lowercased name when it has no `.`. */
  function GetFileExtension(filename: string): (r: string)
    ensures |r| <= |filename| && r == Lower(filename[|filename| - |r|..])
    ensures NoDot(r)
    ensures |r| == |filename| || filename[|filename| - |r| - 1] == '.'
  {
    Lower(filename[ExtensionStart(filename)..])
  }

  /** A name ending in `.ext`, with no dot in `ext`, has extension `ext` lowercased. */
  lemma {:induction false} ExtensionAfterLastDot(name: string, ext: string)
    requires NoDot(ext)
    ensures ExtensionStart(name + "." + ext) == |name| + 1
    ensures GetFileExtension(name + "." + ext) == Lower(ext)
    decreases |ext|
  {
    var f := name + "." + ext;
    if ext == [] {
      assert f[|f| - 1] == '.';
    } else {
      var init := ext[..|ext| - 1];
      assert f[..|f| - 1] == name + "." + init;
      ExtensionAfterLastDot(name, init);
    }
    assert f[|name| + 1..] == ext;
  }

  // ---------------------------------------------------------------------------------------
  // Keyword highlighting

  datatype Segment = Segment(text: string, highlight: bool)

  /** The keyword occurs at position `i` of `s`, ignoring case, as the `gi` regular expression
      built from the escaped keyword matches it. */
  predicate MatchAt(s: string, i: int, kw: string) {
    0 <= i && i + |kw| <= |s| && EqualsIgnoreCase(s[i..i + |kw|], kw)
  }

  ghost predicate NoMatchIn(s: string, kw: string) {
    forall i :: 0 <= i <= |s| ==> !MatchAt(s, i, kw)
  }

  /** A piece of `text.split(/(kw)/gi)`: text between matches, or a captured match. */
  datatype Piece = Piece(text: string, isMatch: bool)

  /** The pieces of `split` on a capturing, case-insensitive keyword pattern: `acc` is the text
      read since the last match. */
  function Pieces(text: string, kw: string, acc: string): seq<Piece>
    requires kw != ""
    decreases |text|
  {
    if text == [] then [Piece(acc, false)]
    else if MatchAt(text, 0, kw) then
      [Piece(acc, false), Piece(text[..|kw|], true)] + Pieces(text[|kw|..], kw, "")
    else Pieces(text[1..], kw, acc + [text[0]])
  }

  function ConcatPieces(ps: seq<Piece>): string {
    if ps == [] then [] else ps[0].text + ConcatPieces(ps[1..])
  }

  function ConcatSegments(ss: seq<Segment>): string {
    if ss == [] then [] else ss[0].text + ConcatSegments(ss[1..])
  }

  lemma {:induction false} ConcatPiecesAppend(a: seq<Piece>, b: seq<Piece>)
    ensures ConcatPieces(a + b) == ConcatPieces(a) + ConcatPieces(b)
  {
    if a == [] {
      assert a + b == b;
    } else {
      assert (a + b)[1..] == a[1..] + b;
      ConcatPiecesAppend(a[1..], b);
    }
  }

  /** The pieces put back together are the text, after what was read before. */
  lemma {:induction false} PiecesConcat(text: string, kw: string, acc: string)
    requires kw != ""
    ensures ConcatPieces(Pieces(text, kw, acc)) == acc + text
    decreases |text|
  {
    if text == [] {
    } else if MatchAt(text, 0, kw) {
      var head := [Piece(acc, false), Piece(text[..|kw|], true)];
      PiecesConcat(text[|kw|..], kw, "");
      ConcatPiecesAppend(head, Pieces(text[|kw|..], kw, ""));
      assert text[..|kw|] + text[|kw|..] == text;
    } else {
      PiecesConcat(text[1..], kw, acc + [text[0]]);
      assert acc + [text[0]] + text[1..] == acc + text;
    }
  }

  /** Captured pieces equal the keyword ignoring case; the text between captures holds no
      occurrence of it, provided none starts inside what was read before. */
  lemma {:induction false} PiecesMatch(text: string, kw: string, acc: string)
    requires kw != ""
    requires forall i :: 0 <= i < |acc| ==> !MatchAt(acc + text, i, kw)
    ensures forall k :: 0 <= k < |Pieces(text, kw, acc)| ==>
      var p := Pieces(text, kw, acc)[k];
      (p.isMatch ==> EqualsIgnoreCase(p.text, kw)) && (!p.isMatch ==> NoMatchIn(p.text, kw))
    decreases |text|
  {
    var ps := Pieces(text, kw, acc);
    if text == [] {
      assert acc + text == acc;
    } else if MatchAt(text, 0, kw) {
      forall i | 0 <= i <= |acc| ensures !MatchAt(acc, i, kw) {
        if i < |acc| && i + |kw| <= |acc| {
          assert (acc + text)[i..i + |kw|] == acc[i..i + |kw|];
          assert !MatchAt(acc + text, i, kw);
        }
      }
      assert text[..|kw|][0..|kw|] == text[..|kw|];
      PiecesMatch(text[|kw|..], kw, "");
      assert ps[2..] == Pieces(text[|kw|..], kw, "");
    } else {
      var acc' := acc + [text[0]];
      assert acc' + text[1..] == acc + text;
      PiecesMatch(text[1..], kw, acc');
    }
  }

  /** `parts.filter(Boolean).map(part => ({ text: part, highlight: … }))`. */
  function SegmentsOf(ps: seq<Piece>, kw: string): (r: seq<Segment>)
    ensures forall i :: 0 <= i < |r| ==> r[i].text != ""
    ensures ConcatSegments(r) == ConcatPieces(ps)
  {
    if ps == [] then []
    else if ps[0].text == "" then SegmentsOf(ps[1..], kw)
    else [Segment(ps[0].text, EqualsIgnoreCase(ps[0].text, kw))] + SegmentsOf(ps[1..], kw)
  }

  /** Each segment comes from a piece, and is highlighted exactly when that piece is a match. */
  lemma {:induction false} SegmentsFromPieces(ps: seq<Piece>, kw: string)
    requires forall k :: 0 <= k < |ps| ==>
      (ps[k].isMatch ==> EqualsIgnoreCase(ps[k].text, kw)) && (!ps[k].isMatch ==> NoMatchIn(ps[k].text, kw))
    ensures forall i :: 0 <= i < |SegmentsOf(ps, kw)| ==>
      var s := SegmentsOf(ps, kw)[i];
      (s.highlight ==> EqualsIgnoreCase(s.text, kw)) && (!s.highlight ==> NoMatchIn(s.text, kw))
  {
    if ps != [] {
      SegmentsFromPieces(ps[1..], kw);
      var p := ps[0];
      if p.text != "" && !p.isMatch {
        assert !MatchAt(p.text, 0, kw);
        if |kw| == |p.text| {
          assert p.text[0..|kw|] == p.text;
        }
      }
    }
  }

  /** `highlightText(text, keyword)`. With an empty keyword or text it returns the text as one
      plain segment; otherwise nonempty segments that spell the text, where highlighted
      segments are the keyword ignoring case and plain ones contain no occurrence of it. */
  function HighlightText(text: string, kw: string): (r: seq<Segment>)
    ensures kw == "" || text == "" ==> r == [Segment(text, false)]
    ensures ConcatSegments(r) == text
    ensures kw != "" && text != "" ==> forall i :: 0 <= i < |r| ==> r[i].text != ""
    ensures forall i :: 0 <= i < |r| ==> r[i].highlight ==> EqualsIgnoreCase(r[i].text, kw)
    ensures kw != "" ==> forall i :: 0 <= i < |r| ==> !r[i].highlight ==> NoMatchIn(r[i].text, kw)
  {
    if kw == "" || text == "" then [Segment(text, false)]
    else
      PiecesConcat(text, kw, "");
      PiecesMatch(text, kw, "");
      SegmentsFromPieces(Pieces(text, kw, ""), kw);
      SegmentsOf(Pieces(text, kw, ""), kw)
  }

  // ---------------------------------------------------------------------------------------
  // Relative time

  const Second: int := 1000
  const Minute: int := 60 * Second
  const Hour: int := 60 * Minute
  const Day: int := 24 * Hour
  const Month: int := 30 * Day
  const Year: int := 365 * Day

  /** The bucket `formatRelativeTime` picks and its count. */
  datatype Relative = YearsAgo(n: nat) | MonthsAgo(n: nat) | DaysAgo(n: nat) | HoursAgo(n: nat)
                    | MinutesAgo(n: nat) | JustNow

  /** The nested floor divisions of `formatRelativeTime` are single floor divisions by the
      unit lengths (Dafny's division by a positive number rounds down, as `Math.floor`). */
  lemma NestedFloors(x: int)
    ensures x / 1000 / 60 == x / Minute
    ensures x / 1000 / 60 / 60 == x / Hour
    ensures x / 1000 / 60 / 60 / 24 == x / Day
    ensures x / 1000 / 60 / 60 / 24 / 30 == x / Month
    ensures x / 1000 / 60 / 60 / 24 / 365 == x / Year
  {
  }

  /** The successive floor divisions of a millisecond difference. */
  function Bucket(diff: int): (r: Relative)
    ensures r.YearsAgo? <==> diff >= Year
    ensures r.YearsAgo? ==> r.n == diff / Year
    ensures r.MonthsAgo? <==> Month <= diff < Year
    ensures r.MonthsAgo? ==> r.n == diff / Month
    ensures r.DaysAgo? <==> Day <= diff < Month
    ensures r.DaysAgo? ==> r.n == diff / Day
    ensures r.HoursAgo? <==> Hour <= diff < Day
    ensures r.HoursAgo? ==> r.n == diff / Hour
    ensures r.MinutesAgo? <==> Minute <= diff < Hour
    ensures r.MinutesAgo? ==> r.n == diff / Minute
    ensures r.JustNow? <==> diff < Minute
  {
    var seconds := diff / 1000;
    var minutes := seconds / 60;
    var hours := minutes / 60;
    var days := hours / 24;
    var months := days / 30;
    var years := days / 365;
    NestedFloors(diff);
    if years > 0 then YearsAgo(years)
    else if months > 0 then MonthsAgo(months)
    else if days > 0 then DaysAgo(days)
    else if hours > 0 then HoursAgo(hours)
    else if minutes > 0 then MinutesAgo(minutes)
    else JustNow
  }

  function RelativeText(r: Relative): string {
    match r
    case YearsAgo(n) => NatToString(n) + " 年前"
    case MonthsAgo(n) => NatToString(n) + " 个月前"
    case DaysAgo(n) => NatToString(n) + " 天前"
    case HoursAgo(n) => NatToString(n) + " 小时前"
    case MinutesAgo(n) => NatToString(n) + " 分钟前"
    case JustNow => "刚刚"
  }

  /** `formatRelativeTime` with the difference `now - date` in milliseconds as input. A
      difference under a minute, negative ones included, reads `刚刚`. */
  function FormatRelativeTime(diff: int): (r: string)
    ensures r == "刚刚" <==> diff < Minute
    ensures diff >= Year ==> r == NatToString(diff / Year) + " 年前"
    ensures Month <= diff < Year ==> r == NatToString(diff / Month) + " 个月前"
    ensures Day <= diff < Month ==> r == NatToString(diff / Day) + " 天前"
    ensures Hour <= diff < Day ==> r == NatToString(diff / Hour) + " 小时前"
    ensures Minute <= diff < Hour ==> r == NatToString(diff / Minute) + " 分钟前"
  {
    RelativeText(Bucket(diff))
  }
}
