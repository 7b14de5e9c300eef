/** The build-time data generator (scripts/generate-data.js): it turns a directory listing of
    image files into the catalog entries of a series, sorts them by size, and splits them
    into a category index and one file per category, each payload written with
    `Codec.EncodeData`. The listing, the measured image sizes, the clock, `JSON.stringify`
    and the substitution table are parameters. */
module Generate {
  import opened Wrappers
  import opened Strings
  import opened Catalog
  import Seqs
  import Assoc
  import Codec
  import Format
  import Sorting
  import WallpaperStore

  // ---------------------------------------------------------------------------------------
  // File names: `path.extname` and `path.basename(name, ext)` on a name without `/`

  /** A directory entry name: it contains no path separator. */
  predicate IsBaseName(name: string) {
    forall i :: 0 <= i < |name| ==> name[i] != '/'
  }

  /** The position of the last `.`. */
  function LastDot(s: string): (r: Option<nat>)
    ensures r.Some? ==> r.value < |s| && s[r.value] == '.'
    ensures r.Some? ==> forall j :: r.value < j < |s| ==> s[j] != '.'
    ensures r.None? ==> forall j :: 0 <= j < |s| ==> s[j] != '.'
  {
    if s == [] then None
    else if s[|s| - 1] == '.' then Some(|s| - 1)
    else LastDot(s[..|s| - 1])
  }

  /** `path.extname(name)`: from the last `.` to the end, except that a name without a dot,
      a name whose only dot is its first character, and `..` have none. */
  function ExtName(name: string): (r: string)
    requires IsBaseName(name)
    ensures r != "" ==> r[0] == '.' && |r| < |name| && name[|name| - |r|..] == r
    ensures r != "" ==> forall j :: 1 <= j < |r| ==> r[j] != '.'
    ensures r == "" <==> LastDot(name).None? || LastDot(name).value == 0 || name == ".."
  {
    match LastDot(name)
    case None => ""
    case Some(k) => if k == 0 || name == ".." then "" else name[k..]
  }

  /** `path.basename(name, path.extname(name))`: the name without its extension. */
  function Stem(name: string): (r: string)
    requires IsBaseName(name)
    ensures r + ExtName(name) == name
  {
    name[..|name| - |ExtName(name)|]
  }

  /** A name made of a stem and a dot-free extension has exactly that extension. */
  lemma {:induction false} ExtNameOf(stem: string, ext: string)
    requires stem != "" && stem + "." + ext != ".." && IsBaseName(stem + "." + ext)
    requires forall j :: 0 <= j < |ext| ==> ext[j] != '.'
    ensures ExtName(stem + "." + ext) == "." + ext
    ensures Stem(stem + "." + ext) == stem
  {
    var name := stem + "." + ext;
    LastDotOf(stem, ext);
    assert name[|stem|..] == "." + ext;
  }

  lemma {:induction false} LastDotOf(stem: string, ext: string)
    requires forall j :: 0 <= j < |ext| ==> ext[j] != '.'
    ensures LastDot(stem + "." + ext) == Some(|stem|)
    decreases |ext|
  {
    var name := stem + "." + ext;
    if ext != [] {
      var shorter := ext[..|ext| - 1];
      assert name[..|name| - 1] == stem + "." + shorter;
      LastDotOf(stem, shorter);
    }
  }

  // ---------------------------------------------------------------------------------------
  // Category of a file name

  const Uncategorized: string := "未分类"

  /** The category of an extension-less name: the trimmed text before the first `--` when it
      is not blank, else `未分类`. */
  function CategoryOfStem(stem: string): (r: string)
    ensures r != ""
    ensures !Contains(stem, "--") ==> r == Uncategorized
  {
    match IndexOf(stem, "--")
    case None => Uncategorized
    case Some(k) =>
      var head := Trim(stem[..k]);
      if head != "" then head else Uncategorized
  }

  /** With `--` first occurring at `k`, the category is the trimmed text before it unless
      that is blank. */
  lemma CategoryOfStemAt(stem: string, k: int)
    requires FirstOccurrence(stem, "--", k)
    ensures Trim(stem[..k]) != "" ==> CategoryOfStem(stem) == Trim(stem[..k])
    ensures Trim(stem[..k]) == "" ==> CategoryOfStem(stem) == Uncategorized
  {
    assert IsPrefix("--", stem[k..]) by {
      assert stem[k..][..2] == stem[k..k + 2];
    }
    ContainsAt(stem, "--", k);
    var m := IndexOf(stem, "--").value;
    FirstOccurrenceUnique(stem, "--", m);
    assert FirstOccurrence(stem, "--", m);
  }

  /** `sub` occurs at `k` and nowhere before. */
  ghost predicate FirstOccurrence(s: string, sub: string, k: int) {
    0 <= k && k + |sub| <= |s| && s[k..k + |sub|] == sub
    && forall j :: 0 <= j < k ==> !IsPrefix(sub, s[j..])
  }

  lemma FirstOccurrenceUnique(s: string, sub: string, k: int)
    requires IndexOf(s, sub) == Some(k)
    ensures FirstOccurrence(s, sub, k)
    ensures forall m :: FirstOccurrence(s, sub, m) ==> m == k
  {
    forall m | FirstOccurrence(s, sub, m) ensures m == k {
      assert s[m..][..|sub|] == s[m..m + |sub|];
      assert s[k..][..|sub|] == s[k..k + |sub|];
    }
  }

  /** `extractCategory(filename)`. */
  function ExtractCategory(name: string): (r: string)
    requires IsBaseName(name)
    ensures r != ""
    ensures r == CategoryOfStem(Stem(name))
  {
    CategoryOfStem(Stem(name))
  }

  /** An occurrence at position `j` is an occurrence. */
  lemma {:induction false} ContainsAt(s: string, sub: string, j: nat)
    requires j <= |s| && IsPrefix(sub, s[j..])
    ensures Contains(s, sub)
    decreases j
  {
    if j > 0 {
      assert s[1..][j - 1..] == s[j..];
      ContainsAt(s[1..], sub, j - 1);
    }
  }

  /** A name written as `{category}--{rest}.{ext}` gives its category back, provided the
      category is trimmed, holds no `--` and does not end in `-`. */
  lemma CategoryRoundTrip(c: string, rest: string, ext: string)
    requires c != "" && !IsJsWhitespace(c[0]) && !IsJsWhitespace(c[|c| - 1])
    requires !Contains(c, "--") && c[|c| - 1] != '-'
    requires forall j :: 0 <= j < |ext| ==> ext[j] != '.'
    requires IsBaseName(c + "--" + rest + "." + ext)
    ensures ExtractCategory(c + "--" + rest + "." + ext) == c
  {
    var stem := c + "--" + rest;
    var name := c + "--" + rest + "." + ext;
    assert name == stem + "." + ext;
    ExtNameOf(stem, ext);
    assert Stem(name) == stem;
    StemCategory(c, rest);
  }

  lemma StemCategory(c: string, rest: string)
    requires c != "" && !IsJsWhitespace(c[0]) && !IsJsWhitespace(c[|c| - 1])
    requires !Contains(c, "--") && c[|c| - 1] != '-'
    ensures CategoryOfStem(c + "--" + rest) == c
  {
    var stem := c + "--" + rest;
    FirstDashes(c, rest);
    assert stem[..|c|] == c;
    TrimUntouched(c);
    CategoryOfStemAt(stem, |c|);
  }

  /** The first `--` of `c + "--" + rest` is the one after `c`. */
  lemma FirstDashes(c: string, rest: string)
    requires c != "" && !Contains(c, "--") && c[|c| - 1] != '-'
    ensures FirstOccurrence(c + "--" + rest, "--", |c|)
  {
    var stem := c + "--" + rest;
    assert stem[|c|..|c| + 2] == "--";
    assert stem[..|c|] == c;
    var none := IndexOf(c, "--");
    assert none.None?;
    forall j | 0 <= j < |c| ensures !IsPrefix("--", stem[j..]) {
      NoDashesBefore(c, stem, j);
    }
  }

  /** Inside a prefix `c` free of `--` and not ending in `-`, no `--` starts. */
  lemma NoDashesBefore(c: string, stem: string, j: int)
    requires |c| <= |stem| && stem[..|c|] == c && 0 <= j < |c|
    requires forall i :: 0 <= i <= |c| ==> !IsPrefix("--", c[i..])
    requires c[|c| - 1] != '-'
    ensures !IsPrefix("--", stem[j..])
  {
    if j + 2 <= |c| {
      assert !IsPrefix("--", c[j..]);
      assert c[j..][..2] == [c[j], c[j + 1]];
      assert stem[j] == c[j] && stem[j + 1] == c[j + 1];
    } else {
      assert stem[j] == c[j];
    }
  }

  /** A string without white space at either end is its own trim. */
  lemma TrimUntouched(s: string)
    requires s != "" && !IsJsWhitespace(s[0]) && !IsJsWhitespace(s[|s| - 1])
    ensures Trim(s) == s
  {
    var r := Trim(s);
    var k :| CutFrom(s, k, r);
  }

  // ---------------------------------------------------------------------------------------
  // The build-time resolution label

  /** The table of the build script's `getResolutionLabel`, highest row first; below the last
      row the label is `SD`. */
  const BuildThresholds: seq<Format.Threshold> := [
    Format.Threshold(7680, "8K", "danger"),
    Format.Threshold(3840, "4K", "warning"),
    Format.Threshold(2560, "2K", "info"),
    Format.Threshold(1920, "1080P", "success"),
    Format.Threshold(1280, "720P", "primary")
  ]

  /** `getResolutionLabel(width, height)` of the build script: the label and type of the
      first row the long side reaches, else `SD`/`secondary`. */
  function BuildLabel(width: int, height: int): (r: (string, string))
    ensures forall k :: Format.FirstReached(BuildThresholds, Format.Max(width, height), k) ==>
      r == (BuildThresholds[k].text, BuildThresholds[k].kind)
    ensures Format.Max(width, height) < 1280 ==> r == ("SD", "secondary")
  {
    match Format.FindThreshold(BuildThresholds, Format.Max(width, height))
    case Some(k) => (BuildThresholds[k].text, BuildThresholds[k].kind)
    case None => ("SD", "secondary")
  }

  /** The build-time table and the one the pages use label the same images differently: a
      5120-wide image is `4K` here and `5K+` there, a 1920-wide one `1080P` here and `超清`
      there. */
  lemma BuildLabelDiffersFromRuntime()
    ensures BuildLabel(5120, 2880).0 == "4K" && Format.GetResolutionLabel(5120, 2880).text == "5K+"
    ensures BuildLabel(1920, 1080).0 == "1080P" && Format.GetResolutionLabel(1920, 1080).text == "超清"
    ensures BuildLabel(7680, 4320).0 == "8K" && Format.GetResolutionLabel(7680, 4320).text == "5K+"
  {
    assert Format.FirstReached(BuildThresholds, 5120, 1);
    assert Format.FirstReached(BuildThresholds, 1920, 3);
    assert Format.FirstReached(BuildThresholds, 7680, 0);
    assert Format.FirstReached(Format.RuntimeThresholds, 5120, 0);
    assert Format.FirstReached(Format.RuntimeThresholds, 1920, 4);
    assert Format.FirstReached(Format.RuntimeThresholds, 7680, 0);
  }

  /** The resolution record attached to an entry: present only when the measurement
      succeeded with a positive width and height. */
  function ResolutionOf(measured: Option<(int, int)>): (r: Option<Resolution>)
    ensures r.Some? <==> measured.Some? && measured.value.0 > 0 && measured.value.1 > 0
    ensures r.Some? ==> r.value.width == measured.value.0 && r.value.height == measured.value.1
    ensures r.Some? ==> (r.value.labelText, r.value.kind) == BuildLabel(r.value.width, r.value.height)
  {
    match measured
    case Some((w, h)) =>
      if w > 0 && h > 0 then
        var l := BuildLabel(w, h);
        Some(Resolution(w, h, l.0, l.1))
      else None
    case None => None
  }

  // ---------------------------------------------------------------------------------------
  // `encodeURIComponent`

  /** The characters `encodeURIComponent` leaves as they are. */
  predicate IsUnreserved(c: char) {
    ('A' <= c <= 'Z') || ('a' <= c <= 'z') || ('0' <= c <= '9')
    || c == '-' || c == '_' || c == '.' || c == '!' || c == '~' || c == '*' || c == '\''
    || c == '(' || c == ')'
  }

  function HexChar(v: int): (c: char)
    requires 0 <= v < 16
    ensures IsUnreserved(c)
  {
    if v < 10 then ('0' as int + v) as char else ('A' as int + v - 10) as char
  }

  function HexValue(c: char): (r: Option<int>)
    ensures r.Some? ==> 0 <= r.value < 16
  {
    if '0' <= c <= '9' then Some(c as int - '0' as int)
    else if 'A' <= c <= 'F' then Some(c as int - 'A' as int + 10)
    else if 'a' <= c <= 'f' then Some(c as int - 'a' as int + 10)
    else None
  }

  /** `%XX` with upper-case hex digits for each byte. */
  function Escape(bs: seq<Codec.Byte>): (r: string)
    ensures |r| == 3 * |bs|
    ensures forall i :: 0 <= i < |r| ==> IsUnreserved(r[i]) || r[i] == '%'
  {
    if bs == [] then []
    else ['%', HexChar(bs[0] / 16), HexChar(bs[0] % 16)] + Escape(bs[1..])
  }

  function EncodeUriChar(c: char): string {
    if IsUnreserved(c) then [c] else Escape(Codec.EncodeChar(c))
  }

  /** `encodeURIComponent(s)`: unreserved characters are kept; every other character is
      written as the `%XX` escapes of its UTF-8 bytes. */
  function EncodeUriComponent(s: string): (r: string)
    ensures (forall i :: 0 <= i < |s| ==> IsUnreserved(s[i])) ==> r == s
    ensures forall i :: 0 <= i < |r| ==> IsUnreserved(r[i]) || r[i] == '%'
  {
    if s == [] then []
    else
      assert s == [s[0]] + s[1..];
      EncodeUriChar(s[0]) + EncodeUriComponent(s[1..])
  }

  /** Reads `%XX` escapes and plain ASCII characters back into bytes. */
  function Unescape(t: string): Option<seq<Codec.Byte>>
    decreases |t|
  {
    if t == [] then Some([])
    else if t[0] == '%' then
      if |t| >= 3 && HexValue(t[1]).Some? && HexValue(t[2]).Some? then
        match Unescape(t[3..])
        case None => None
        case Some(rest) => Some([HexValue(t[1]).value * 16 + HexValue(t[2]).value] + rest)
      else None
    else if t[0] as int < 0x80 then
      match Unescape(t[1..])
      case None => None
      case Some(rest) => Some([t[0] as int] + rest)
    else None
  }

  /** The reference inverse of `EncodeUriComponent`. */
  function DecodeUriComponent(t: string): Option<string> {
    match Unescape(t)
    case None => None
    case Some(bs) => Codec.Utf8Decode(bs)
  }

  lemma HexValueOfHexChar(v: int)
    requires 0 <= v < 16
    ensures HexValue(HexChar(v)) == Some(v)
  {
  }

  /** One escape is read back as its byte, ahead of whatever follows. */
  lemma UnescapeOne(b: Codec.Byte, rest: string)
    ensures var u := ['%', HexChar(b / 16), HexChar(b % 16)] + rest;
      Unescape(u) == if Unescape(rest).Some? then Some([b] + Unescape(rest).value) else None
  {
    var u := ['%', HexChar(b / 16), HexChar(b % 16)] + rest;
    HexValueOfHexChar(b / 16);
    HexValueOfHexChar(b % 16);
    assert u[3..] == rest;
    assert (b / 16) * 16 + b % 16 == b;
  }

  lemma {:induction false} UnescapeEscape(bs: seq<Codec.Byte>, t: string)
    ensures Unescape(Escape(bs) + t) == if Unescape(t).Some? then Some(bs + Unescape(t).value) else None
  {
    if bs != [] {
      UnescapeEscape(bs[1..], t);
      UnescapeEscapeStep(bs, t);
    } else {
      assert Escape(bs) + t == t;
      if Unescape(t).Some? {
        assert bs + Unescape(t).value == Unescape(t).value;
      }
    }
  }

  lemma SeqAssoc(a: string, b: string, c: string)
    ensures (a + b) + c == a + (b + c)
  {
  }

  /** The inductive step of `UnescapeEscape`: one more byte in front. */
  lemma UnescapeEscapeStep(bs: seq<Codec.Byte>, t: string)
    requires bs != []
    requires Unescape(Escape(bs[1..]) + t) == if Unescape(t).Some? then Some(bs[1..] + Unescape(t).value) else None
    ensures Unescape(Escape(bs) + t) == if Unescape(t).Some? then Some(bs + Unescape(t).value) else None
  {
    var b := bs[0];
    var e := Escape(bs[1..]);
    var head := ['%', HexChar(b / 16), HexChar(b % 16)];
    assert Escape(bs) == head + e;
    SeqAssoc(head, e, t);
    UnescapeAfter(b, bs[1..], e + t, Unescape(t));
    assert [b] + bs[1..] == bs;
  }

  /** An escaped byte in front of text that reads back as `xs` followed by `tail`. */
  lemma UnescapeAfter(b: Codec.Byte, xs: seq<Codec.Byte>, rest: string, tail: Option<seq<Codec.Byte>>)
    requires Unescape(rest) == if tail.Some? then Some(xs + tail.value) else None
    ensures Unescape(['%', HexChar(b / 16), HexChar(b % 16)] + rest)
         == if tail.Some? then Some([b] + xs + tail.value) else None
  {
    UnescapeOne(b, rest);
    if tail.Some? {
      assert [b] + (xs + tail.value) == [b] + xs + tail.value;
    }
  }

  lemma {:induction false} UnescapeEncode(s: string)
    ensures Unescape(EncodeUriComponent(s)) == Some(Codec.Utf8Encode(s))
  {
    if s != [] {
      var c := s[0];
      var rest := EncodeUriComponent(s[1..]);
      UnescapeEncode(s[1..]);
      if IsUnreserved(c) {
        var u := [c] + rest;
        assert u[1..] == rest;
        assert Codec.EncodeChar(c) == [c as int];
      } else {
        UnescapeEscape(Codec.EncodeChar(c), rest);
      }
    }
  }

  /** Nothing is lost: decoding the escaped text gives the string back. */
  lemma EncodeUriRoundTrip(s: string)
    ensures DecodeUriComponent(EncodeUriComponent(s)) == Some(s)
  {
    UnescapeEncode(s);
    Codec.Utf8RoundTrip(s);
  }

  lemma EncodeUriInjective(s: string, t: string)
    requires EncodeUriComponent(s) == EncodeUriComponent(t)
    ensures s == t
  {
    EncodeUriRoundTrip(s);
    EncodeUriRoundTrip(t);
  }

  // ---------------------------------------------------------------------------------------
  // Series configuration and the entries of a series

  /** One series of `CONFIG.SERIES`. */
  datatype SeriesConfig = SeriesConfig(id: string, name: string, wallpaperDir: string,
                                       thumbnailDir: string, previewDir: string,
                                       outputFile: string, hasPreview: bool)

  const Desktop: SeriesConfig := SeriesConfig("desktop", "电脑壁纸", "wallpaper/desktop",
    "thumbnail/desktop", "preview/desktop", "desktop.json", true)
  const Mobile: SeriesConfig := SeriesConfig("mobile", "手机壁纸", "wallpaper/mobile",
    "thumbnail/mobile", "preview/mobile", "mobile.json", true)
  /** The avatar series has no preview directory. */
  const Avatar: SeriesConfig := SeriesConfig("avatar", "头像", "wallpaper/avatar",
    "thumbnail/avatar", "", "avatar.json", false)

  /** A listed image file: its name, byte size and content hash ("" when listed locally). */
  datatype ImageFile = ImageFile(name: string, size: int, sha: string)

  const ImageExtensions: seq<string> := [".jpg", ".jpeg", ".png", ".gif", ".webp"]

  /** The listing filter: the lower-cased extension is one of the image extensions. */
  predicate IsImageName(name: string)
    requires IsBaseName(name)
  {
    Lower(ExtName(name)) in ImageExtensions
  }

  /** `path.extname(name).replace('.', '').toUpperCase()`. */
  function FormatOf(name: string): (r: string)
    requires IsBaseName(name)
    ensures |r| == if ExtName(name) == "" then 0 else |ExtName(name)| - 1
  {
    var ext := ExtName(name);
    Upper(if ext == "" then "" else ext[1..])
  }

  lemma UpperOfLower(s: string)
    ensures Upper(Lower(s)) == Upper(s)
  {
  }

  /** The upper-cased extensions without their dot. */
  lemma ImageExtensionFormats(l: string)
    requires l in ImageExtensions
    ensures |l| > 0 && Upper(l[1..]) in ["JPG", "JPEG", "PNG", "GIF", "WEBP"]
  {
    if l == ".jpg" {
      assert Upper(l[1..]) == "JPG";
    } else if l == ".jpeg" {
      assert Upper(l[1..]) == "JPEG";
    } else if l == ".png" {
      assert Upper(l[1..]) == "PNG";
    } else if l == ".gif" {
      assert Upper(l[1..]) == "GIF";
    } else {
      assert Upper(l[1..]) == "WEBP";
    }
  }

  /** Every listed image file gets one of five format names. */
  lemma FormatOfImage(name: string)
    requires IsBaseName(name) && IsImageName(name)
    ensures FormatOf(name) in ["JPG", "JPEG", "PNG", "GIF", "WEBP"]
  {
    var ext := ExtName(name);
    var l := Lower(ext);
    ImageExtensionFormats(l);
    var t := ext[1..];
    assert l[1..] == Lower(t);
    UpperOfLower(t);
    assert FormatOf(name) == Upper(t);
  }

  const HourMs: int := 3600000

  function ImagePath(config: SeriesConfig, name: string): string {
    "/" + config.wallpaperDir + "/" + EncodeUriComponent(name)
  }

  function ThumbnailPath(config: SeriesConfig, name: string): string
    requires IsBaseName(name)
  {
    "/" + config.thumbnailDir + "/" + EncodeUriComponent(Stem(name)) + ".webp"
  }

  function PreviewPath(config: SeriesConfig, name: string): Option<string>
    requires IsBaseName(name)
  {
    if config.hasPreview then Some("/" + config.previewDir + "/" + EncodeUriComponent(Stem(name)) + ".webp")
    else None
  }

  /** The identifier of the entry at `index`. */
  function EntryId(config: SeriesConfig, index: nat): string {
    config.id + "-" + NatToString(index + 1)
  }

  /** The entry `generateWallpaperData` makes of the file at `index`; `measured` is what the
      image measurement gave, `now` the clock in milliseconds when the run started. */
  function EntryOf(file: ImageFile, index: nat, config: SeriesConfig, now: int,
                   measured: Option<(int, int)>): Wallpaper
    requires IsBaseName(file.name)
  {
    Wallpaper(
      id := EntryId(config, index),
      filename := file.name,
      category := Some(ExtractCategory(file.name)),
      subcategory := None,
      tags := [],
      path := ImagePath(config, file.name),
      thumbnailPath := ThumbnailPath(config, file.name),
      previewPath := PreviewPath(config, file.name),
      url := "",
      thumbnailUrl := "",
      previewUrl := None,
      downloadUrl := "",
      size := Some(file.size),
      format := FormatOf(file.name),
      createdAt := now - index * HourMs,
      sha := file.sha,
      resolution := ResolutionOf(measured))
  }

  ghost predicate AllBaseNames(files: seq<ImageFile>) {
    forall i :: 0 <= i < |files| ==> IsBaseName(files[i].name)
  }

  /** `generateWallpaperData(files, seriesConfig, localRepoPath)`: one entry per file, in
      order. `measure` gives the measured size of a file, `None` when there is no local
      copy or it cannot be measured. */
  function GenerateWallpaperData(files: seq<ImageFile>, config: SeriesConfig, now: int,
                                 measure: string -> Option<(int, int)>): (r: seq<Wallpaper>)
    requires AllBaseNames(files)
    ensures |r| == |files|
    ensures forall i :: 0 <= i < |files| ==>
      r[i].filename == files[i].name && r[i].size == Some(files[i].size) && r[i].sha == files[i].sha
      && r[i].category == Some(ExtractCategory(files[i].name))
    ensures forall i :: 0 <= i < |files| ==> r[i].id == EntryId(config, i)
  {
    var r := seq(|files|, i requires 0 <= i < |files| => EntryOf(files[i], i, config, now, measure(files[i].name)));
    assert forall i :: 0 <= i < |files| ==> r[i] == EntryOf(files[i], i, config, now, measure(files[i].name));
    r
  }

  /** Identifiers are distinct within a series. */
  lemma GeneratedIdsDistinct(files: seq<ImageFile>, config: SeriesConfig, now: int,
                             measure: string -> Option<(int, int)>, i: int, j: int)
    requires AllBaseNames(files) && 0 <= i < |files| && 0 <= j < |files| && i != j
    ensures GenerateWallpaperData(files, config, now, measure)[i].id
         != GenerateWallpaperData(files, config, now, measure)[j].id
  {
    var p := config.id + "-";
    var a, b := EntryId(config, i), EntryId(config, j);
    if a == b {
      assert a[|p|..] == NatToString(i + 1);
      assert b[|p|..] == NatToString(j + 1);
      NatToStringInjective(i + 1, j + 1);
    }
  }

  /** Each later entry is exactly one hour older per position. */
  lemma GeneratedDatesDecrease(files: seq<ImageFile>, config: SeriesConfig, now: int,
                               measure: string -> Option<(int, int)>, i: int, j: int)
    requires AllBaseNames(files) && 0 <= i < j < |files|
    ensures var r := GenerateWallpaperData(files, config, now, measure);
      r[i].createdAt - r[j].createdAt == (j - i) * HourMs && r[j].createdAt < r[i].createdAt
  {
    var r := GenerateWallpaperData(files, config, now, measure);
    assert r[i].createdAt - r[j].createdAt == j * HourMs - i * HourMs;
  }

  /** A preview path is present exactly in the series that have previews. */
  lemma GeneratedPreviews(files: seq<ImageFile>, config: SeriesConfig, now: int,
                          measure: string -> Option<(int, int)>)
    requires AllBaseNames(files)
    ensures forall w :: w in GenerateWallpaperData(files, config, now, measure) ==>
      (w.previewPath.Some? <==> config.hasPreview)
  {
  }

  /** Distinct file names get distinct image paths. */
  lemma GeneratedPathsDistinct(files: seq<ImageFile>, config: SeriesConfig, now: int,
                               measure: string -> Option<(int, int)>, i: int, j: int)
    requires AllBaseNames(files) && 0 <= i < |files| && 0 <= j < |files|
    requires files[i].name != files[j].name
    ensures GenerateWallpaperData(files, config, now, measure)[i].path
         != GenerateWallpaperData(files, config, now, measure)[j].path
  {
    var p := "/" + config.wallpaperDir + "/";
    var a, b := ImagePath(config, files[i].name), ImagePath(config, files[j].name);
    if a == b {
      assert a[|p|..] == EncodeUriComponent(files[i].name);
      assert b[|p|..] == EncodeUriComponent(files[j].name);
      EncodeUriInjective(files[i].name, files[j].name);
    }
  }

  /** Every entry of a listing of image files has one of the five format names. */
  lemma GeneratedFormats(files: seq<ImageFile>, config: SeriesConfig, now: int,
                         measure: string -> Option<(int, int)>)
    requires AllBaseNames(files)
    requires forall i :: 0 <= i < |files| ==> IsImageName(files[i].name)
    ensures forall w :: w in GenerateWallpaperData(files, config, now, measure) ==>
      w.format in ["JPG", "JPEG", "PNG", "GIF", "WEBP"]
  {
    var r := GenerateWallpaperData(files, config, now, measure);
    forall w | w in r ensures w.format in ["JPG", "JPEG", "PNG", "GIF", "WEBP"] {
      var i :| 0 <= i < |r| && r[i] == w;
      FormatOfImage(files[i].name);
    }
  }

  // ---------------------------------------------------------------------------------------
  // Grouping by category

  /** The object key of an entry's category; a missing category is the key `undefined`. */
  function GroupKey(w: Wallpaper): string {
    match w.category
    case Some(c) => c
    case None => "undefined"
  }

  function InCategory(k: string): Wallpaper -> bool {
    (w: Wallpaper) => GroupKey(w) == k
  }

  type Groups = Assoc.Assoc<seq<Wallpaper>>

  /** One step of the grouping loop: the group is created when missing, then `w` is pushed. */
  function AddToGroup(g: Groups, w: Wallpaper): Groups {
    Assoc.Set(g, GroupKey(w), Assoc.Get(g, GroupKey(w)).GetOr([]) + [w])
  }

  /** The groups after the loop has seen `ws`. */
  function Grouped(ws: seq<Wallpaper>): Groups
    decreases |ws|
  {
    if ws == [] then [] else AddToGroup(Grouped(ws[..|ws| - 1]), ws[|ws| - 1])
  }

  /** The `forEach` that fills `categoryGroups`. */
  method GroupByCategory(ws: seq<Wallpaper>) returns (groups: Groups)
    ensures groups == Grouped(ws)
  {
    groups := [];
    var i := 0;
    while i < |ws|
      invariant 0 <= i <= |ws|
      invariant groups == Grouped(ws[..i])
    {
      var key := GroupKey(ws[i]);
      var items := match Assoc.Get(groups, key) case Some(l) => l case None => [];
      groups := Assoc.Set(groups, key, items + [ws[i]]);
      assert ws[..i + 1][..i] == ws[..i];
      i := i + 1;
    }
    assert ws[..|ws|] == ws;
  }

  /** The group of `k` as the loop leaves it: the entries of category `k` in input order,
      or none when there are none. */
  function GroupOf(ws: seq<Wallpaper>, k: string): Option<seq<Wallpaper>> {
    if Seqs.Count(ws, InCategory(k)) > 0 then Some(Seqs.Filter(ws, InCategory(k))) else None
  }

  /** Every category present has one group holding exactly its entries in input order, and
      there is no other group. */
  lemma {:induction false} GroupedCorrect(ws: seq<Wallpaper>)
    ensures Assoc.DistinctKeys(Grouped(ws))
    ensures forall k :: Assoc.Get(Grouped(ws), k) == GroupOf(ws, k)
    decreases |ws|
  {
    if ws != [] {
      var init, w := ws[..|ws| - 1], ws[|ws| - 1];
      assert ws == init + [w];
      GroupedCorrect(init);
      var g := Grouped(init);
      var kw := GroupKey(w);
      Assoc.DistinctSet(g, kw, Assoc.Get(g, kw).GetOr([]) + [w]);
      forall k ensures Assoc.Get(Grouped(ws), k) == GroupOf(ws, k) {
        AddToGroupStep(g, init, w, k);
      }
    }
  }

  lemma AddToGroupStep(g: Groups, init: seq<Wallpaper>, w: Wallpaper, k: string)
    requires forall j :: Assoc.Get(g, j) == GroupOf(init, j)
    ensures Assoc.Get(AddToGroup(g, w), k) == GroupOf(init + [w], k)
  {
    var kw := GroupKey(w);
    var v := Assoc.Get(g, kw).GetOr([]) + [w];
    Assoc.GetSet(g, kw, v);
    var p := InCategory(k);
    FilterSnoc(init, w, p);
    assert Assoc.Get(g, k) == GroupOf(init, k);
    if k == kw {
      assert p(w);
      Seqs.CountIsFilterLength(init, p);
      assert v == Seqs.Filter(init, p) + [w];
    } else {
      assert !p(w);
      assert Assoc.Get(AddToGroup(g, w), k) == Assoc.Get(g, k);
      assert Seqs.Filter(init + [w], p) == Seqs.Filter(init, p) + [];
      assert Seqs.Filter(init, p) + [] == Seqs.Filter(init, p);
    }
  }

  lemma FilterSnoc(init: seq<Wallpaper>, w: Wallpaper, p: Wallpaper -> bool)
    ensures Seqs.Count(init + [w], p) == Seqs.Count(init, p) + (if p(w) then 1 else 0)
    ensures Seqs.Filter(init + [w], p) == Seqs.Filter(init, p) + (if p(w) then [w] else [])
  {
    Seqs.FilterAppend(init, [w], p);
    Seqs.CountAppend(init, [w], p);
    assert Seqs.Filter([w], p) == (if p(w) then [w] else []) + Seqs.Filter([w][1..], p);
    assert Seqs.Count([w], p) == (if p(w) then 1 else 0) + Seqs.Count([w][1..], p);
  }

  /** The number of entries over all groups. */
  function TotalItems(g: Groups): nat {
    if g == [] then 0 else |g[0].1| + TotalItems(g[1..])
  }

  lemma {:induction false} TotalItemsSet(g: Groups, k: string, v: seq<Wallpaper>)
    ensures TotalItems(Assoc.Set(g, k, v)) == TotalItems(g) - |Assoc.Get(g, k).GetOr([])| + |v|
  {
    if g != [] && g[0].0 != k {
      TotalItemsSet(g[1..], k, v);
      assert Assoc.Set(g, k, v)[1..] == Assoc.Set(g[1..], k, v);
    } else if g != [] {
      assert Assoc.Set(g, k, v)[1..] == g[1..];
    }
  }

  /** Every entry lands in exactly one group. */
  lemma {:induction false} GroupedTotal(ws: seq<Wallpaper>)
    ensures TotalItems(Grouped(ws)) == |ws|
    decreases |ws|
  {
    if ws != [] {
      var init, w := ws[..|ws| - 1], ws[|ws| - 1];
      GroupedTotal(init);
      var g := Grouped(init);
      TotalItemsSet(g, GroupKey(w), Assoc.Get(g, GroupKey(w)).GetOr([]) + [w]);
    }
  }

  // ---------------------------------------------------------------------------------------
  // The category index

  /** One element of the `categories` array. */
  datatype CategoryEntry = CategoryEntry(id: string, name: string, count: nat, thumbnail: string, file: string)

  /** `s.replace(/\s+/g, '-')`: every run of white space becomes one `-`. */
  function DashRuns(s: string): (r: string)
    ensures |r| <= |s|
    ensures forall i :: 0 <= i < |r| ==> !IsJsWhitespace(r[i])
    ensures (forall i :: 0 <= i < |s| ==> !IsJsWhitespace(s[i])) ==> r == s
    decreases |s|
  {
    if s == [] then []
    else if IsJsWhitespace(s[0]) then
      var t := TrimStart(s);
      assert |t| < |s|;
      ['-'] + DashRuns(t)
    else
      assert s == [s[0]] + s[1..];
      [s[0]] + DashRuns(s[1..])
  }

  /** `name.replace(/\s+/g, '-').toLowerCase()`: the entry's id has no white space. */
  function Slug(name: string): (r: string)
    ensures |r| <= |name|
    ensures forall i :: 0 <= i < |r| ==> !IsJsWhitespace(r[i])
  {
    Lower(DashRuns(name))
  }

  /** `items[0]?.thumbnailPath || items[0]?.path || ''`. */
  function Thumbnail(items: seq<Wallpaper>): string {
    if items == [] then ""
    else if items[0].thumbnailPath != "" then items[0].thumbnailPath
    else items[0].path
  }

  function IndexEntry(name: string, items: seq<Wallpaper>): CategoryEntry {
    CategoryEntry(Slug(name), name, |items|, Thumbnail(items), name + ".json")
  }

  /** `Object.entries(categoryGroups).map(...)`, in the groups' order. */
  function Entries(g: Groups): (r: seq<CategoryEntry>)
    ensures |r| == |g|
    ensures forall i :: 0 <= i < |g| ==> r[i] == IndexEntry(g[i].0, g[i].1)
  {
    seq(|g|, i requires 0 <= i < |g| => IndexEntry(g[i].0, g[i].1))
  }

  /** The comparator `(a, b) => b.count - a.count` at most 0. */
  function CountDesc(): (CategoryEntry, CategoryEntry) -> bool {
    (a: CategoryEntry, b: CategoryEntry) => b.count <= a.count
  }

  /** The sorted `categories` array of a list of entries. */
  function CategoryIndex(ws: seq<Wallpaper>): (r: seq<CategoryEntry>)
    ensures multiset(r) == multiset(Entries(Grouped(ws)))
  {
    Seqs.SortBy(Entries(Grouped(ws)), CountDesc())
  }

  function SumCounts(es: seq<CategoryEntry>): nat {
    if es == [] then 0 else es[0].count + SumCounts(es[1..])
  }

  lemma {:induction false} SumCountsInsert(e: CategoryEntry, es: seq<CategoryEntry>)
    ensures SumCounts(Seqs.Insert(e, es, CountDesc())) == e.count + SumCounts(es)
  {
    if es != [] && !CountDesc()(e, es[0]) {
      SumCountsInsert(e, es[1..]);
      assert Seqs.Insert(e, es, CountDesc())[1..] == Seqs.Insert(e, es[1..], CountDesc());
    } else if es != [] {
      assert Seqs.Insert(e, es, CountDesc())[1..] == es;
    }
  }

  lemma {:induction false} SumCountsSort(es: seq<CategoryEntry>)
    ensures SumCounts(Seqs.SortBy(es, CountDesc())) == SumCounts(es)
  {
    if es != [] {
      SumCountsSort(es[1..]);
      SumCountsInsert(es[0], Seqs.SortBy(es[1..], CountDesc()));
    }
  }

  lemma {:induction false} SumCountsEntries(g: Groups)
    ensures SumCounts(Entries(g)) == TotalItems(g)
  {
    if g != [] {
      SumCountsEntries(g[1..]);
      assert Entries(g)[1..] == Entries(g[1..]);
    }
  }

  /** The counts of the index add up to the number of entries. */
  lemma CategoryIndexTotal(ws: seq<Wallpaper>)
    ensures SumCounts(CategoryIndex(ws)) == |ws|
  {
    SumCountsSort(Entries(Grouped(ws)));
    SumCountsEntries(Grouped(ws));
    GroupedTotal(ws);
  }

  /** The index is ordered by non-increasing count. */
  lemma CategoryIndexSorted(ws: seq<Wallpaper>)
    ensures forall i, j :: 0 <= i < j < |CategoryIndex(ws)| ==>
      CategoryIndex(ws)[j].count <= CategoryIndex(ws)[i].count
  {
    Seqs.SortBySorted(Entries(Grouped(ws)), CountDesc());
  }

  /** Each index entry names a category that occurs, counts exactly its entries and points
      at its own file. */
  lemma CategoryIndexEntries(ws: seq<Wallpaper>, i: int)
    requires 0 <= i < |CategoryIndex(ws)|
    ensures var e := CategoryIndex(ws)[i];
      e.file == e.name + ".json" && e.count == Seqs.Count(ws, InCategory(e.name)) && e.count > 0
  {
    var e := CategoryIndex(ws)[i];
    var g := Grouped(ws);
    assert e in multiset(Entries(g));
    var m :| 0 <= m < |g| && Entries(g)[m] == e;
    GroupedCorrect(ws);
    Assoc.GetAt(g, m);
    Seqs.CountIsFilterLength(ws, InCategory(g[m].0));
  }

  /** Each category that occurs has an entry, and no two entries share a name. */
  lemma CategoryIndexNames(ws: seq<Wallpaper>)
    ensures forall i :: 0 <= i < |ws| ==> exists j :: 0 <= j < |CategoryIndex(ws)| && CategoryIndex(ws)[j].name == GroupKey(ws[i])
    ensures forall i, j :: 0 <= i < j < |CategoryIndex(ws)| ==> CategoryIndex(ws)[i].name != CategoryIndex(ws)[j].name
  {
    var g := Grouped(ws);
    var es := Entries(g);
    var r := CategoryIndex(ws);
    GroupedCorrect(ws);
    forall i | 0 <= i < |ws| ensures exists j :: 0 <= j < |r| && r[j].name == GroupKey(ws[i]) {
      var k := GroupKey(ws[i]);
      Seqs.CountPositive(ws, InCategory(k), i);
      var m :| 0 <= m < |g| && g[m] == (k, Assoc.Get(g, k).value);
      EntryIsListed(es, r, m);
    }
    DistinctNames(es, r);
  }

  /** An entry of the unsorted list is somewhere in its rearrangement. */
  lemma EntryIsListed(es: seq<CategoryEntry>, r: seq<CategoryEntry>, m: int)
    requires multiset(r) == multiset(es) && 0 <= m < |es|
    ensures exists j :: 0 <= j < |r| && r[j] == es[m]
  {
    assert es[m] in multiset(r);
  }

  /** A rearrangement of entries with distinct names has distinct names. */
  lemma DistinctNames(es: seq<CategoryEntry>, r: seq<CategoryEntry>)
    requires multiset(r) == multiset(es)
    requires forall a, b :: 0 <= a < b < |es| ==> es[a].name != es[b].name
    ensures forall i, j :: 0 <= i < j < |r| ==> r[i].name != r[j].name
  {
    assert Seqs.Distinct(es) by {
      forall a, b | 0 <= a < b < |es| ensures es[a] != es[b] {
        assert es[a].name != es[b].name;
      }
    }
    Seqs.DistinctPermutation(r, es);
    forall i, j | 0 <= i < j < |r| ensures r[i].name != r[j].name {
      assert r[i] in multiset(es) && r[j] in multiset(es);
      var a :| 0 <= a < |es| && es[a] == r[i];
      var b :| 0 <= b < |es| && es[b] == r[j];
      if a < b {
        assert es[a].name != es[b].name;
      } else if b < a {
        assert es[b].name != es[a].name;
      }
    }
  }

  // ---------------------------------------------------------------------------------------
  // The files a series produces

  /** What a run depends on besides the listing: the clock (in milliseconds, and as the ISO
      text written into the files), `NODE_ENV`, the encoding's prefix and substitution
      table, `JSON.stringify` of a list and of an index, and the image measurement. */
  datatype Build = Build(
    now: int, generatedAt: string, env: string,
    prefix: string, table: map<char, string>,
    stringifyList: seq<Wallpaper> -> string,
    stringifyIndex: seq<CategoryEntry> -> string,
    measure: string -> Option<(int, int)>)

  /** The fields of the index entries that the store reads. */
  function Refs(es: seq<CategoryEntry>): (r: seq<WallpaperStore.CategoryRef>)
    ensures |r| == |es|
    ensures forall i :: 0 <= i < |es| ==>
      r[i] == WallpaperStore.CategoryRef(es[i].name, es[i].count, es[i].file)
  {
    seq(|es|, i requires 0 <= i < |es| => WallpaperStore.CategoryRef(es[i].name, es[i].count, es[i].file))
  }

  /** `index.json` of a series: the encoded category list and the descriptive fields. */
  function IndexFileOf(ws: seq<Wallpaper>, categories: seq<CategoryEntry>, seriesId: string,
                       config: SeriesConfig, b: Build): WallpaperStore.IndexFile {
    WallpaperStore.IndexFile(Codec.EncodeData(b.prefix, b.table, b.stringifyIndex(categories)), "",
      WallpaperStore.IndexMeta(b.generatedAt, seriesId, config.name, |ws|, |categories|, 2, b.env),
      None)
  }

  /** A category file: the encoded list of its entries. */
  function CategoryFileOf(items: seq<Wallpaper>, b: Build): WallpaperStore.CategoryFile {
    WallpaperStore.CategoryFile(Codec.EncodeData(b.prefix, b.table, b.stringifyList(items)), "", None)
  }

  /** The output of the category split: the sorted index, `index.json`, and each category's
      file under its name. */
  datatype Split = Split(categories: seq<CategoryEntry>, index: WallpaperStore.IndexFile,
                         files: seq<(string, WallpaperStore.CategoryFile)>)

  function CategoryFilesOf(g: Groups, b: Build): (r: seq<(string, WallpaperStore.CategoryFile)>)
    ensures |r| == |g|
    ensures forall i :: 0 <= i < |g| ==> r[i] == (g[i].0 + ".json", CategoryFileOf(g[i].1, b))
  {
    seq(|g|, i requires 0 <= i < |g| => (g[i].0 + ".json", CategoryFileOf(g[i].1, b)))
  }

  function SplitOf(ws: seq<Wallpaper>, seriesId: string, config: SeriesConfig, b: Build): Split {
    var categories := CategoryIndex(ws);
    Split(categories, IndexFileOf(ws, categories, seriesId, config, b), CategoryFilesOf(Grouped(ws), b))
  }

  /** `generateCategorySplitData(wallpapers, seriesId, seriesConfig)`: group, index, sort,
      and one file per group in the groups' order. */
  method GenerateCategorySplitData(ws: seq<Wallpaper>, seriesId: string, config: SeriesConfig, b: Build)
    returns (split: Split)
    ensures split == SplitOf(ws, seriesId, config, b)
  {
    var groups := GroupByCategory(ws);
    var categories := Seqs.SortBy(Entries(groups), CountDesc());
    var index := IndexFileOf(ws, categories, seriesId, config, b);
    var files := WriteCategoryFiles(groups, b);
    split := Split(categories, index, files);
  }

  /** The `for … of Object.entries(categoryGroups)` loop: one file per group, in order. */
  method WriteCategoryFiles(groups: Groups, b: Build) returns (files: seq<(string, WallpaperStore.CategoryFile)>)
    ensures files == CategoryFilesOf(groups, b)
  {
    files := [];
    var i := 0;
    while i < |groups|
      invariant 0 <= i <= |groups|
      invariant |files| == i
      invariant forall k :: 0 <= k < i ==> files[k] == (groups[k].0 + ".json", CategoryFileOf(groups[k].1, b))
    {
      files := files + [(groups[i].0 + ".json", CategoryFileOf(groups[i].1, b))];
      i := i + 1;
    }
  }

  // ---------------------------------------------------------------------------------------
  // Reading the files back

  /** A nonempty text encodes to a nonempty blob. */
  lemma EncodeDataNonEmpty(prefix: string, table: map<char, string>, s: string)
    requires s != ""
    ensures Codec.EncodeData(prefix, table, s) != ""
  {
    var bs := Codec.Utf8Encode(s);
    assert bs == Codec.EncodeChar(s[0]) + Codec.Utf8Encode(s[1..]);
    var t := Codec.Base64Encode(bs);
    assert |t| >= 4;
    assert Codec.MapChars(table, t) == Codec.Subst(table, t[0]) + Codec.MapChars(table, t[1..]);
  }

  /** A store decoder made of the reference decoder and a JSON reader. */
  function Reader<T>(prefix: string, inverse: map<char, char>, parse: string -> Option<T>): string -> Option<T> {
    (s: string) =>
      match Codec.DecodeData(prefix, inverse, s)
      case Some(t) => parse(t)
      case None => None
  }

  /** The store reads back the category list the generator wrote into `index.json`, when
      its decoder inverts the substitution table and its JSON reader inverts the writer. */
  lemma IndexReadBack(ws: seq<Wallpaper>, seriesId: string, config: SeriesConfig, b: Build,
                      inverse: map<char, char>, parse: string -> Option<seq<WallpaperStore.CategoryRef>>)
    requires Codec.Inverts(b.table, inverse)
    requires b.stringifyIndex(CategoryIndex(ws)) != ""
    requires parse(b.stringifyIndex(CategoryIndex(ws))) == Some(Refs(CategoryIndex(ws)))
    ensures WallpaperStore.IndexOf(SplitOf(ws, seriesId, config, b).index, Reader(b.prefix, inverse, parse))
         == WallpaperStore.IndexData(SplitOf(ws, seriesId, config, b).index.meta, Some(Refs(CategoryIndex(ws))))
  {
    var text := b.stringifyIndex(CategoryIndex(ws));
    Codec.DecodeEncode(b.prefix, b.table, inverse, text);
    EncodeDataNonEmpty(b.prefix, b.table, text);
  }

  /** Every index entry has a category file under its `file` name, and the store reads back
      from it exactly the entries of that category, in order. */
  lemma CategoryReadBack(ws: seq<Wallpaper>, seriesId: string, config: SeriesConfig, b: Build,
                         inverse: map<char, char>, parse: string -> Option<WallpaperStore.Decoded>, i: int)
    requires Codec.Inverts(b.table, inverse)
    requires forall items :: b.stringifyList(items) != "" && parse(b.stringifyList(items)) == Some(WallpaperStore.Bare(items))
    requires 0 <= i < |CategoryIndex(ws)|
    ensures var e := CategoryIndex(ws)[i];
      var files := SplitOf(ws, seriesId, config, b).files;
      exists j :: 0 <= j < |files| && files[j].0 == e.file
        && WallpaperStore.CategoryListOf(files[j].1, Reader(b.prefix, inverse, parse)) == Seqs.Filter(ws, InCategory(e.name))
  {
    var e := CategoryIndex(ws)[i];
    var g := Grouped(ws);
    var m := GroupOfEntry(ws, i);
    var files := CategoryFilesOf(g, b);
    assert files[m] == (e.file, CategoryFileOf(g[m].1, b));
    ListReadBack(g[m].1, b, inverse, parse);
  }

  /** The group behind an index entry. */
  lemma GroupOfEntry(ws: seq<Wallpaper>, i: int) returns (m: int)
    requires 0 <= i < |CategoryIndex(ws)|
    ensures 0 <= m < |Grouped(ws)|
    ensures var e := CategoryIndex(ws)[i];
      e.name == Grouped(ws)[m].0 && e.file == e.name + ".json"
      && Grouped(ws)[m].1 == Seqs.Filter(ws, InCategory(e.name))
  {
    var e := CategoryIndex(ws)[i];
    var g := Grouped(ws);
    assert e in multiset(Entries(g));
    m :| 0 <= m < |g| && Entries(g)[m] == e;
    GroupedCorrect(ws);
    Assoc.GetAt(g, m);
  }

  /** A category file reads back as the list written into it. */
  lemma ListReadBack(items: seq<Wallpaper>, b: Build, inverse: map<char, char>,
                     parse: string -> Option<WallpaperStore.Decoded>)
    requires Codec.Inverts(b.table, inverse)
    requires b.stringifyList(items) != "" && parse(b.stringifyList(items)) == Some(WallpaperStore.Bare(items))
    ensures WallpaperStore.CategoryListOf(CategoryFileOf(items, b), Reader(b.prefix, inverse, parse)) == items
  {
    Codec.DecodeEncode(b.prefix, b.table, inverse, b.stringifyList(items));
    EncodeDataNonEmpty(b.prefix, b.table, b.stringifyList(items));
  }

  // ---------------------------------------------------------------------------------------
  // One series

  /** The series data file (`desktop.json` and so on). */
  datatype SeriesFile = SeriesFile(generatedAt: string, series: string, seriesName: string,
                                   total: nat, schema: int, env: string, blob: string)

  /** What `processSeries` writes and returns: the list, its data file and, for a nonempty
      listing, the category split. */
  datatype SeriesOutput = SeriesOutput(wallpapers: seq<Wallpaper>, file: SeriesFile, split: Option<Split>)

  function SeriesOutputOf(files: seq<ImageFile>, seriesId: string, config: SeriesConfig, b: Build): SeriesOutput
    requires AllBaseNames(files)
  {
    if files == [] then
      SeriesOutput([], SeriesFile(b.generatedAt, seriesId, config.name, 0, 1, b.env,
                                  Codec.EncodeData(b.prefix, b.table, b.stringifyList([]))), None)
    else
      var ws := Sorting.SortBySize(GenerateWallpaperData(files, config, b.now, b.measure), "desc");
      SeriesOutput(ws, SeriesFile(b.generatedAt, seriesId, config.name, |ws|, 1, b.env,
                                  Codec.EncodeData(b.prefix, b.table, b.stringifyList(ws))),
                   Some(SplitOf(ws, seriesId, config, b)))
  }

  /** `processSeries(seriesId, seriesConfig)` after the listing: an empty listing writes an
      empty list and no split; otherwise the entries are generated, sorted by size from the
      largest, written, and split by category. */
  method ProcessSeries(files: seq<ImageFile>, seriesId: string, config: SeriesConfig, b: Build)
    returns (out: SeriesOutput)
    requires AllBaseNames(files)
    ensures out == SeriesOutputOf(files, seriesId, config, b)
  {
    if |files| == 0 {
      var blob := Codec.EncodeData(b.prefix, b.table, b.stringifyList([]));
      return SeriesOutput([], SeriesFile(b.generatedAt, seriesId, config.name, 0, 1, b.env, blob), None);
    }
    var ws := GenerateWallpaperData(files, config, b.now, b.measure);
    ws := Sorting.SortBySize(ws, "desc");
    var blob := Codec.EncodeData(b.prefix, b.table, b.stringifyList(ws));
    var split := GenerateCategorySplitData(ws, seriesId, config, b);
    out := SeriesOutput(ws, SeriesFile(b.generatedAt, seriesId, config.name, |ws|, 1, b.env, blob), Some(split));
  }

  /** An empty listing gives an empty list, a zero total and no category files. */
  lemma ProcessSeriesEmpty(seriesId: string, config: SeriesConfig, b: Build)
    ensures SeriesOutputOf([], seriesId, config, b).wallpapers == []
    ensures SeriesOutputOf([], seriesId, config, b).file.total == 0
    ensures SeriesOutputOf([], seriesId, config, b).split.None?
  {
  }

  lemma OutputOfListing(files: seq<ImageFile>, seriesId: string, config: SeriesConfig, b: Build)
    requires AllBaseNames(files) && files != []
    ensures SeriesOutputOf(files, seriesId, config, b).wallpapers
         == Sorting.SortBySize(GenerateWallpaperData(files, config, b.now, b.measure), "desc")
    ensures SeriesOutputOf(files, seriesId, config, b).file.total == |files|
  {
  }

  /** For a nonempty listing the list holds exactly the generated entries, largest first,
      and the total is the number of files. */
  lemma ProcessSeriesList(files: seq<ImageFile>, seriesId: string, config: SeriesConfig, b: Build)
    requires AllBaseNames(files) && files != []
    ensures var out := SeriesOutputOf(files, seriesId, config, b);
      multiset(out.wallpapers) == multiset(GenerateWallpaperData(files, config, b.now, b.measure))
      && out.file.total == |files|
      && forall i, j :: 0 <= i < j < |out.wallpapers| ==> SizeOrZero(out.wallpapers[j]) <= SizeOrZero(out.wallpapers[i])
  {
    var gen := GenerateWallpaperData(files, config, b.now, b.measure);
    OutputOfListing(files, seriesId, config, b);
    assert Sorting.AllSized(gen);
    Sorting.SortBySizeOrdered(gen, "desc");
  }

  ghost predicate DistinctIds(ws: seq<Wallpaper>) {
    forall i, j :: 0 <= i < j < |ws| ==> ws[i].id != ws[j].id
  }

  /** The written list has distinct ids. */
  lemma ProcessSeriesIds(files: seq<ImageFile>, seriesId: string, config: SeriesConfig, b: Build)
    requires AllBaseNames(files) && files != []
    ensures DistinctIds(SeriesOutputOf(files, seriesId, config, b).wallpapers)
  {
    var gen := GenerateWallpaperData(files, config, b.now, b.measure);
    OutputOfListing(files, seriesId, config, b);
    forall i, j | 0 <= i < j < |gen| ensures gen[i].id != gen[j].id {
      GeneratedIdsDistinct(files, config, b.now, b.measure, i, j);
    }
    PermutedIds(gen, Sorting.SortBySize(gen, "desc"));
  }

  /** A rearrangement keeps the ids distinct. */
  lemma PermutedIds(gen: seq<Wallpaper>, ws: seq<Wallpaper>)
    requires multiset(ws) == multiset(gen) && DistinctIds(gen)
    ensures DistinctIds(ws)
  {
    assert Seqs.Distinct(gen) by {
      forall x, y | 0 <= x < y < |gen| ensures gen[x] != gen[y] {
        assert gen[x].id != gen[y].id;
      }
    }
    Seqs.DistinctPermutation(ws, gen);
    forall i, j | 0 <= i < j < |ws| ensures ws[i].id != ws[j].id {
      assert ws[i] in multiset(gen) && ws[j] in multiset(gen);
      var a :| 0 <= a < |gen| && gen[a] == ws[i];
      var c :| 0 <= c < |gen| && gen[c] == ws[j];
      assert a != c;
    }
  }

  /** Ids follow the listing, not the written order: of two files the larger comes first
      although it has the second id. */
  lemma IdsFollowListing(f0: ImageFile, f1: ImageFile, seriesId: string, config: SeriesConfig, b: Build)
    requires IsBaseName(f0.name) && IsBaseName(f1.name) && f0.size < f1.size
    ensures var out := SeriesOutputOf([f0, f1], seriesId, config, b).wallpapers;
      |out| == 2 && out[0].id == EntryId(config, 1) && out[1].id == EntryId(config, 0)
  {
    OutputOfListing([f0, f1], seriesId, config, b);
    var gen := GenerateWallpaperData([f0, f1], config, b.now, b.measure);
    SwapTwo(gen, EntryId(config, 0), EntryId(config, 1));
  }

  /** Two sized entries, the second larger, change places in the size-descending order. */
  lemma SwapTwo(gen: seq<Wallpaper>, id0: string, id1: string)
    requires |gen| == 2 && gen[0].id == id0 && gen[1].id == id1
    requires gen[0].size.Some? && gen[1].size.Some? && gen[0].size.value < gen[1].size.value
    ensures var ws := Sorting.SortBySize(gen, "desc");
      |ws| == 2 && ws[0].id == id1 && ws[1].id == id0
  {
    TwoSorted(gen[0], gen[1]);
    assert gen == [gen[0], gen[1]];
  }

  /** Sorting two sized entries by size from the largest swaps them when the second is
      larger. */
  lemma TwoSorted(x: Wallpaper, y: Wallpaper)
    requires x.size.Some? && y.size.Some? && x.size.value < y.size.value
    ensures Sorting.SortBySize([x, y], "desc") == [y, x]
  {
    var le := Sorting.SizeLe("desc");
    assert [x, y][1..] == [y];
    assert Seqs.SortBy([y], le) == [y];
    assert !le(x, y);
    assert Seqs.Insert(x, [y], le) == [y] + Seqs.Insert(x, [], le);
  }

  /** The series data file decodes back to the written list. */
  lemma SeriesBlobReadBack(files: seq<ImageFile>, seriesId: string, config: SeriesConfig, b: Build,
                           inverse: map<char, char>)
    requires AllBaseNames(files) && Codec.Inverts(b.table, inverse)
    ensures var out := SeriesOutputOf(files, seriesId, config, b);
      Codec.DecodeData(b.prefix, inverse, out.file.blob) == Some(b.stringifyList(out.wallpapers))
  {
    var out := SeriesOutputOf(files, seriesId, config, b);
    Codec.DecodeEncode(b.prefix, b.table, inverse, b.stringifyList(out.wallpapers));
  }
}
