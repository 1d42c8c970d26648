/**
 What the check reads of a title, of its package's record and of its original's (internal/compliance/evaluate.go), and
 the measures it holds against the rules: whether the video was copied, its bit rate, its bucket, the image subtitles
 missed.
 */
module Titles {
  import opened Wrappers
  import Text
  import Rules
  import Audio

  datatype Status = Pending | InProgress | Done | Failed | Skipped | NotApplicable

  /** A transcode or a package: its status, the maxrate its details name (Mbit/s), and the Dolby Vision profile its
      reason says was refused. */
  datatype Step = Step(status: Option<Status>, maxrate: Option<real>, refused: Option<string>) {
    predicate Is(of: set<Status>) {
      status.Some? && status.value in of
    }
  }

  /** A width and a height; both 0 where a resolution's text can't be read. */
  datatype Size = Size(width: real, height: real)

  datatype Title = Title(id: string, kind: string, discImage: bool, hasOriginal: bool, fileBytes: Option<int>,
                         sourceBytes: Option<int>, fileSize: Option<Size>, version: Option<string>,
                         versionBytes: Option<int>, taken: bool, pkgCodec: Option<string>, pkgBytes: Option<int>,
                         pkgSize: Option<Size>, transcode: Step, package: Step)
  {
    predicate Packaged() {
      version.Some? || pkgCodec.Some? || pkgBytes.Some?
    }
  }

  /** A video rendition of a package. */
  datatype Video = Video(codec: string, width: Option<real>, height: Option<real>, bitrate: Option<real>,
                         encoder: Option<string>)

  /** A subtitle of a package: its format, its language, the place of the original's stream it was made from. */
  datatype Subtitle = Subtitle(format: Option<string>, language: string, stream: Option<int>)

  /** audio: the bit rates of its stereo renditions, then of its surround ones. */
  datatype PackageRecord = PackageRecord(sizeBytes: Option<real>, durationMs: Option<real>, video: seq<Video>,
                                         audio: seq<Option<real>>, subtitles: seq<Subtitle>)

  /** A stream of an original; tag is the tag of its language, "" where it names none. */
  datatype Stream = Stream(kind: string, codec: Option<string>, cover: bool, width: Option<real>, height: Option<real>,
                           bitrate: Option<real>, dolbyVision: Option<string>, index: Option<int>, tag: string,
                           form: Option<string>)
  {
    predicate IsVideo() {
      kind == "video" && !cover
    }
  }

  /** tracks are its audio streams as the packager reads them. */
  datatype SourceRecord = SourceRecord(sizeBytes: Option<int>, format: Option<string>, streams: seq<Stream>,
                                       tracks: seq<Audio.Track>)

  datatype Essence = Essence(surround: bool, channels: Option<real>)

  /** What was read of a title's records; unread: some could not be read. */
  datatype Records = Records(pkg: Option<PackageRecord>, src: Option<SourceRecord>, pkgEssence: Option<Essence>,
                             srcEssence: Option<Essence>, unread: bool)
  {
    predicate HasVideo() {
      pkg.Some? && pkg.value.video != []
    }

    function Top(): Video
      requires HasVideo()
    {
      pkg.value.video[0]
    }

    function Streams(): seq<Stream> {
      if src.Some? then src.value.streams else []
    }
  }

  const NO_RECORDS := Records(None, None, None, None, false)

  // ---- its video: copied or encoded, its codec

  datatype Copied = Unknown | Yes | No

  function CopiedOf(t: Title, r: Records): Copied {
    if r.HasVideo() && Text.TrimSpace(r.Top().encoder.GetOr("")) != "" then
      if Rules.Word(r.Top().encoder.value) == "copy" then Yes else No
    else if t.transcode.Is({NotApplicable}) then Yes
    else if t.transcode.Is({Done}) then No
    else Unknown
  }

  function CodecOf(t: Title, r: Records): string {
    if r.HasVideo() && Text.TrimSpace(r.Top().codec) != "" then Text.TrimSpace(r.Top().codec)
    else Text.TrimSpace(t.pkgCodec.GetOr(""))
  }

  predicate StartsWith(codec: string, names: set<string>) {
    exists p :: p in names && p <= Rules.Lower(codec)
  }

  predicate IsHevc(codec: string) {
    StartsWith(codec, {"hev1", "hvc1", "dvh1", "dvhe", "hevc", "h265"})
  }

  predicate IsH264(codec: string) {
    StartsWith(codec, {"avc1", "avc3", "h264"})
  }

  function OriginalBytes(t: Title, r: Records): Option<int> {
    if t.versionBytes.Some? then t.versionBytes
    else if r.src.Some? && r.src.value.sizeBytes.Some? then r.src.value.sizeBytes
    else if t.sourceBytes.Some? then t.sourceBytes
    else t.fileBytes
  }

  /** The video was copied where its package says so; where the package does not say, where there was nothing to
      transcode. */
  lemma CopiedIs(t: Title, r: Records)
    ensures var encoder := if r.HasVideo() then Text.TrimSpace(r.Top().encoder.GetOr("")) else "";
            if encoder != "" then CopiedOf(t, r) == if Rules.Lower(encoder) == "copy" then Yes else No
            else (CopiedOf(t, r).Yes? <==> t.transcode.status == Some(NotApplicable)) &&
                 (CopiedOf(t, r).No? <==> t.transcode.status == Some(Done))
  {
  }

  /** Its codec is the one its package's record names; without one, the one the catalog has. */
  lemma CodecIs(t: Title, r: Records)
    ensures var named := if r.HasVideo() then Text.TrimSpace(r.Top().codec) else "";
            CodecOf(t, r) == if named != "" then named else Text.TrimSpace(t.pkgCodec.GetOr(""))
  {
  }

  /** A codec's name: its first four characters, small ones. */
  function NameOf(codec: string): string {
    var low := Rules.Lower(codec);
    if |low| <= 4 then low else low[..4]
  }

  lemma StartsWithName(codec: string, names: set<string>)
    requires forall p :: p in names ==> |p| == 4
    ensures StartsWith(codec, names) <==> NameOf(codec) in names
  {
    forall p | p in names && p <= Rules.Lower(codec) ensures p == NameOf(codec) {}
  }

  /** A codec is HEVC or H.264 by its name, and never both. */
  lemma CodecsApart(codec: string)
    ensures IsHevc(codec) <==> NameOf(codec) in {"hev1", "hvc1", "dvh1", "dvhe", "hevc", "h265"}
    ensures IsH264(codec) <==> NameOf(codec) in {"avc1", "avc3", "h264"}
    ensures !(IsHevc(codec) && IsH264(codec))
  {
    StartsWithName(codec, {"hev1", "hvc1", "dvh1", "dvhe", "hevc", "h265"});
    StartsWithName(codec, {"avc1", "avc3", "h264"});
    var name := NameOf(codec);
    if |name| == 4 && name[0] == 'h' {
      assert "hev1"[1] == 'e' && "hvc1"[1] == 'v' && "hevc"[1] == 'e' && "h265"[3] == '5' && "h264"[3] == '4';
    }
  }

  /** The original's size is its version's; without one its record's, its source's, its file's, the first there is. */
  lemma OriginalBytesIs(t: Title, r: Records)
    ensures var recorded := if r.src.Some? then r.src.value.sizeBytes else None;
            match (t.versionBytes, recorded, t.sourceBytes)
            case (Some(n), _, _) => OriginalBytes(t, r) == Some(n)
            case (None, Some(n), _) => OriginalBytes(t, r) == Some(n)
            case (None, None, Some(n)) => OriginalBytes(t, r) == Some(n)
            case (None, None, None) => OriginalBytes(t, r) == t.fileBytes
  {
  }

  // ---- its bit rate

  /** bit/s; estimated when it was read off a size and a duration. */
  datatype Rate = Rate(bps: real, estimated: bool)

  predicate Positive(v: Option<real>) {
    v.Some? && v.value > 0.0
  }

  function FirstRate(streams: seq<Stream>): Option<real> {
    if streams == [] then None
    else if streams[0].IsVideo() && Positive(streams[0].bitrate) then streams[0].bitrate
    else FirstRate(streams[1..])
  }

  function Sum(rates: seq<Option<real>>): real {
    if rates == [] then 0.0 else Sum(rates[..|rates| - 1]) + rates[|rates| - 1].GetOr(0.0)
  }

  function SizeRate(p: PackageRecord): Option<real> {
    if !Positive(p.sizeBytes) || !Positive(p.durationMs) then None
    else
      var rate := p.sizeBytes.value * 8.0 * 1000.0 / p.durationMs.value - Sum(p.audio);
      if rate > 0.0 then Some(rate) else None
  }

  function RateOf(r: Records, copied: Copied): Option<Rate> {
    if r.HasVideo() && Positive(r.Top().bitrate) then Some(Rate(r.Top().bitrate.value, false))
    else if copied.Yes? && FirstRate(r.Streams()).Some? then Some(Rate(FirstRate(r.Streams()).value, false))
    else if r.pkg.Some? && SizeRate(r.pkg.value).Some? then Some(Rate(SizeRate(r.pkg.value).value, true))
    else None
  }

  method VideoRate(r: Records, copied: Copied) returns (rate: Option<Rate>)
    ensures rate == RateOf(r, copied)
  {
    if r.pkg.Some? && r.pkg.value.video != [] && Positive(r.pkg.value.video[0].bitrate) {
      return Some(Rate(r.pkg.value.video[0].bitrate.value, false));
    }
    if copied.Yes? && r.src.Some? {
      var streams := r.src.value.streams;
      for i := 0 to |streams|
        invariant FirstRate(streams) == FirstRate(streams[i..])
      {
        var s := streams[i];
        if s.kind == "video" && !s.cover && s.bitrate.Some? && s.bitrate.value > 0.0 {
          return Some(Rate(s.bitrate.value, false));
        }
      }
    }
    if r.pkg.Some? && Positive(r.pkg.value.sizeBytes) && Positive(r.pkg.value.durationMs) {
      var p := r.pkg.value;
      var whole := p.sizeBytes.value * 8.0 * 1000.0 / p.durationMs.value;
      var left := whole;
      for i := 0 to |p.audio|
        invariant left == whole - Sum(p.audio[..i])
      {
        assert p.audio[..i + 1][..i] == p.audio[..i];
        if p.audio[i].Some? {
          left := left - p.audio[i].value;
        }
      }
      assert p.audio[..|p.audio|] == p.audio;
      if left > 0.0 {
        return Some(Rate(left, true));
      }
    }
    rate := None;
  }

  /** A bit rate is measured exactly when one of its three sources gives one, and is never 0 or below; the package's
      own measure stands whatever else there is, and only the last of the three is an estimate, which never goes above
      the whole package's rate where no track's is below 0. */
  lemma {:induction false} RateIsMeasured(r: Records, copied: Copied)
    ensures r.HasVideo() && Positive(r.Top().bitrate) ==> RateOf(r, copied) == Some(Rate(r.Top().bitrate.value, false))
    ensures RateOf(r, copied).Some? && RateOf(r, copied).value.estimated ==>
              !(r.HasVideo() && Positive(r.Top().bitrate)) &&
              (copied.Yes? ==> forall i :: 0 <= i < |r.Streams()| ==>
               !(r.Streams()[i].IsVideo() && Positive(r.Streams()[i].bitrate)))
    ensures RateOf(r, copied).Some? && RateOf(r, copied).value.estimated &&
            (forall i :: 0 <= i < |r.pkg.value.audio| ==> r.pkg.value.audio[i].GetOr(0.0) >= 0.0) ==>
              RateOf(r, copied).value.bps <= r.pkg.value.sizeBytes.value * 8.0 * 1000.0 / r.pkg.value.durationMs.value
    ensures RateOf(r, copied).Some? ==> RateOf(r, copied).value.bps > 0.0
    ensures RateOf(r, copied).Some? <==>
            (r.HasVideo() && Positive(r.Top().bitrate)) ||
            (copied.Yes? &&
             exists i :: 0 <= i < |r.Streams()| && r.Streams()[i].IsVideo() && Positive(r.Streams()[i].bitrate)) ||
            (r.pkg.Some? && Positive(r.pkg.value.sizeBytes) && Positive(r.pkg.value.durationMs) &&
             r.pkg.value.sizeBytes.value * 8.0 * 1000.0 / r.pkg.value.durationMs.value > Sum(r.pkg.value.audio))
  {
    FirstRateIs(r.Streams());
    if r.pkg.Some? && forall i :: 0 <= i < |r.pkg.value.audio| ==> r.pkg.value.audio[i].GetOr(0.0) >= 0.0 {
      SumNotBelow(r.pkg.value.audio);
    }
  }

  /** Of a copy whose package has no measure it is the rate of the original's first video stream that has one. */
  lemma CopiedRate(r: Records, i: nat)
    requires !(r.HasVideo() && Positive(r.Top().bitrate)) && i < |r.Streams()|
    requires r.Streams()[i].IsVideo() && Positive(r.Streams()[i].bitrate)
    requires forall j :: 0 <= j < i ==> !(r.Streams()[j].IsVideo() && Positive(r.Streams()[j].bitrate))
    ensures RateOf(r, Yes) == Some(Rate(r.Streams()[i].bitrate.value, false))
  {
    FirstRateAt(r.Streams(), i);
  }

  lemma {:induction false} FirstRateAt(streams: seq<Stream>, i: nat)
    requires i < |streams| && streams[i].IsVideo() && Positive(streams[i].bitrate)
    requires forall j :: 0 <= j < i ==> !(streams[j].IsVideo() && Positive(streams[j].bitrate))
    ensures FirstRate(streams) == streams[i].bitrate
  {
    if i > 0 {
      FirstRateAt(streams[1..], i - 1);
    }
  }

  /** An estimate is the whole package's rate where it lists no audio, and less by what one track more runs at. */
  lemma EstimateIs(p: PackageRecord, more: Option<real>)
    ensures Positive(p.sizeBytes) && Positive(p.durationMs) && p.audio == [] ==>
              SizeRate(p) == Some(p.sizeBytes.value * 8.0 * 1000.0 / p.durationMs.value)
    ensures var q := p.(audio := p.audio + [more]);
            SizeRate(p).Some? && SizeRate(q).Some? ==> SizeRate(q).value == SizeRate(p).value - more.GetOr(0.0)
  {
    assert (p.audio + [more])[..|p.audio|] == p.audio;
  }

  lemma {:induction false} SumNotBelow(rates: seq<Option<real>>)
    requires forall i :: 0 <= i < |rates| ==> rates[i].GetOr(0.0) >= 0.0
    ensures Sum(rates) >= 0.0
  {
    if rates != [] {
      SumNotBelow(rates[..|rates| - 1]);
    }
  }

  lemma {:induction false} FirstRateIs(streams: seq<Stream>)
    ensures FirstRate(streams).Some? <==>
            exists i :: 0 <= i < |streams| && streams[i].IsVideo() && Positive(streams[i].bitrate)
    ensures FirstRate(streams).Some? ==> FirstRate(streams).value > 0.0
  {
    if streams != [] && !(streams[0].IsVideo() && Positive(streams[0].bitrate)) {
      FirstRateIs(streams[1..]);
      assert FirstRate(streams) == FirstRate(streams[1..]);
      if i :| 0 <= i < |streams| && streams[i].IsVideo() && Positive(streams[i].bitrate) {
        assert i > 0 && streams[1..][i - 1] == streams[i];
      }
    }
  }

  // ---- its bucket

  function Max(a: real, b: real): real {
    if a < b then b else a
  }

  /** The widest and the tallest of the first n streams of video. */
  function Extent(streams: seq<Stream>, n: nat): Size
    requires n <= |streams|
  {
    if n == 0 then Size(0.0, 0.0)
    else
      var e, s := Extent(streams, n - 1), streams[n - 1];
      if s.IsVideo() then Size(Max(e.width, s.width.GetOr(0.0)), Max(e.height, s.height.GetOr(0.0))) else e
  }

  predicate Sized(s: Size) {
    s.width != 0.0 || s.height != 0.0
  }

  function SizeOf(t: Title, r: Records): Size {
    var original := Extent(r.Streams(), |r.Streams()|);
    if Sized(original) then original
    else if r.HasVideo() && r.Top().width.Some? && r.Top().height.Some? &&
            Sized(Size(r.Top().width.value, r.Top().height.value)) then Size(r.Top().width.value, r.Top().height.value)
    else if t.pkgSize.Some? && Sized(t.pkgSize.value) then t.pkgSize.value
    else t.fileSize.GetOr(Size(0.0, 0.0))
  }

  /** 2160 or 1080; none where the transcoder gives no bucket, or nothing gives a size. */
  function BucketOf(t: Title, r: Records, rs: Rules.RulesState): (b: Option<int>)
    ensures b.Some? ==> b.value == 2160 || b.value == 1080
  {
    if rs.transcoder.None? || rs.transcoder.value.minHeight.None? || rs.transcoder.value.minWidth.None? then None
    else
      var s := SizeOf(t, r);
      if !Sized(s) then None
      else if s.height >= rs.transcoder.value.minHeight.value || s.width >= rs.transcoder.value.minWidth.value
      then Some(2160) else Some(1080)
  }

  method Bucket(t: Title, r: Records, rs: Rules.RulesState) returns (b: Option<int>)
    ensures b == BucketOf(t, r, rs)
  {
    if rs.transcoder.None? {
      return None;
    }
    var tr := rs.transcoder.value;
    if tr.minHeight.None? || tr.minWidth.None? {
      return None;
    }
    var w, h := 0.0, 0.0;
    if r.src.Some? {
      var streams := r.src.value.streams;
      for i := 0 to |streams|
        invariant Size(w, h) == Extent(streams, i)
        invariant w >= 0.0 && h >= 0.0
      {
        var s := streams[i];
        if s.kind == "video" && !s.cover {
          if s.width.Some? {
            w := Max(w, s.width.value);
          }
          if s.height.Some? {
            h := Max(h, s.height.value);
          }
        }
      }
    }
    if w == 0.0 && h == 0.0 && r.HasVideo() && r.Top().width.Some? && r.Top().height.Some? {
      w, h := r.Top().width.value, r.Top().height.value;
    }
    if w == 0.0 && h == 0.0 && t.pkgSize.Some? {
      w, h := t.pkgSize.value.width, t.pkgSize.value.height;
    }
    if w == 0.0 && h == 0.0 && t.fileSize.Some? {
      w, h := t.fileSize.value.width, t.fileSize.value.height;
    }
    if w == 0.0 && h == 0.0 {
      return None;
    }
    b := Some(if h >= tr.minHeight.value || w >= tr.minWidth.value then 2160 else 1080);
  }

  /** Where the original's record gives no size, the bucket is that of the package's video, else of the package as the
      catalog has it, else of its file: the first whose width or height is not 0. */
  lemma BucketFallsBack(t: Title, r: Records, tr: Rules.TranscoderRules, rs: Rules.RulesState)
    requires !Sized(Extent(r.Streams(), |r.Streams()|)) && rs.transcoder == Some(tr)
    requires tr.minHeight.Some? && tr.minWidth.Some?
    ensures var top := if r.HasVideo() && r.Top().width.Some? && r.Top().height.Some?
                       then Size(r.Top().width.value, r.Top().height.value) else Size(0.0, 0.0);
            var pkg, file := t.pkgSize.GetOr(Size(0.0, 0.0)), t.fileSize.GetOr(Size(0.0, 0.0));
            BucketOf(t, r, rs) ==
            if top != Size(0.0, 0.0) then BucketAt(top, tr)
            else if pkg != Size(0.0, 0.0) then BucketAt(pkg, tr)
            else if file != Size(0.0, 0.0) then BucketAt(file, tr) else None
  {
  }

  function BucketAt(s: Size, tr: Rules.TranscoderRules): Option<int>
    requires tr.minHeight.Some? && tr.minWidth.Some?
  {
    Some(if s.height < tr.minHeight.value && s.width < tr.minWidth.value then 1080 else 2160)
  }

  predicate Reaches(s: Stream, height: real, width: real) {
    s.IsVideo() && (s.height.GetOr(0.0) >= height || s.width.GetOr(0.0) >= width)
  }

  /** A title whose original's record gives a size is of the 2160 bucket exactly when one of its video streams is that
      tall or that wide, whichever stream and whatever its package measures; a bucket from 0 on takes every title. */
  lemma BucketIsOfAnyStream(t: Title, r: Records, rs: Rules.RulesState)
    requires rs.transcoder.Some? && rs.transcoder.value.minHeight.Some? && rs.transcoder.value.minWidth.Some?
    requires Sized(Extent(r.Streams(), |r.Streams()|))
    ensures var height, width := rs.transcoder.value.minHeight.value, rs.transcoder.value.minWidth.value;
            BucketOf(t, r, rs) ==
            Some(if height <= 0.0 || width <= 0.0 ||
                    exists i :: 0 <= i < |r.Streams()| && Reaches(r.Streams()[i], height, width)
                 then 2160 else 1080)
  {
    var height, width := rs.transcoder.value.minHeight.value, rs.transcoder.value.minWidth.value;
    ExtentFromZero(r.Streams(), |r.Streams()|);
    if height > 0.0 && width > 0.0 {
      ExtentReaches(r.Streams(), |r.Streams()|, height, width);
    }
  }

  lemma {:induction false} ExtentFromZero(streams: seq<Stream>, n: nat)
    requires n <= |streams|
    ensures Extent(streams, n).width >= 0.0 && Extent(streams, n).height >= 0.0
  {
    if n > 0 {
      ExtentFromZero(streams, n - 1);
    }
  }

  lemma {:induction false} ExtentReaches(streams: seq<Stream>, n: nat, height: real, width: real)
    requires n <= |streams| && height > 0.0 && width > 0.0
    ensures Extent(streams, n).width >= 0.0 && Extent(streams, n).height >= 0.0
    ensures (Extent(streams, n).height >= height || Extent(streams, n).width >= width) <==>
            exists i :: 0 <= i < n && Reaches(streams[i], height, width)
  {
    if n > 0 {
      ExtentReaches(streams, n - 1, height, width);
      if i :| 0 <= i < n && Reaches(streams[i], height, width) {
        assert i < n - 1 || i == n - 1;
      }
      if Reaches(streams[n - 1], height, width) {
        assert 0 <= n - 1 < n && Reaches(streams[n - 1], height, width);
      }
    }
  }

  // ---- its image subtitles

  const UND := "und"

  /** The form of a stream's image subtitles, by its codec; none of text. */
  function ImageForm(s: Stream): Option<string> {
    var codec := Rules.Word(s.codec.GetOr(""));
    if s.form.Some? && Rules.Lower(s.form.value) == "text" then None
    else if codec == "hdmv_pgs_subtitle" then Some("pgs")
    else if codec == "dvd_subtitle" then Some("vobsub")
    else if codec == "dvb_subtitle" then Some("dvb")
    else if codec == "xsub" then Some("xsub")
    else None
  }

  /** The form of a package's subtitle, by its format; "" of one it knows none of. */
  function PackageForm(s: Subtitle): string {
    var f := Rules.Word(s.format.GetOr(""));
    if f == "pgs" || f == "sup" then "pgs" else if f in ["vobsub", "dvb", "xsub"] then f else ""
  }

  /** Each form of image subtitles comes of one codec, and a package's of the format of its name, of PGS "sup" too; a
      stream of text has none. */
  lemma FormsAre(s: Stream, pkg: Subtitle)
    ensures var codec := Rules.Word(s.codec.GetOr(""));
            ImageForm(s).Some? ==>
              (s.form.Some? ==> Rules.Lower(s.form.value) != "text") &&
              (ImageForm(s).value, codec) in {("pgs", "hdmv_pgs_subtitle"), ("vobsub", "dvd_subtitle"),
                                              ("dvb", "dvb_subtitle"), ("xsub", "xsub")}
    ensures (s.form.None? || Rules.Lower(s.form.value) != "text") &&
            Rules.Word(s.codec.GetOr("")) in {"hdmv_pgs_subtitle", "dvd_subtitle", "dvb_subtitle", "xsub"} ==>
              ImageForm(s).Some?
    ensures var format := Rules.Word(pkg.format.GetOr(""));
            PackageForm(pkg) == if format == "sup" then "pgs"
                                else if format in {"pgs", "vobsub", "dvb", "xsub"} then format else ""
  {
  }

  function BeforeDash(tag: string): string {
    if tag == "" || tag[0] == '-' then "" else [tag[0]] + BeforeDash(tag[1..])
  }

  /** A tag's language is what stands before its first dash. */
  lemma {:induction false} BeforeDashIs(lang: string, rest: string)
    requires '-' !in lang
    ensures BeforeDash(lang) == lang && BeforeDash(lang + "-" + rest) == lang
  {
    if lang != "" {
      BeforeDashIs(lang[1..], rest);
      assert (lang + "-" + rest)[1..] == lang[1..] + "-" + rest;
    }
  }

  function TagOf(s: Stream): string {
    if s.tag == "" then UND else s.tag
  }

  function LanguageOf(s: Stream): string {
    if s.tag == "" then UND else BeforeDash(s.tag)
  }

  predicate Matroska(src: SourceRecord) {
    src.format.Some? && Contains(Rules.Lower(src.format.value), "matroska")
  }

  predicate Contains(s: string, part: string) {
    exists i :: 0 <= i <= |s| && part <= s[i..]
  }

  /** The stream is an image subtitle of a form the packager carries; it extracts VobSub of a Matroska original alone.
      */
  predicate Wanted(src: SourceRecord, s: Stream, carried: set<string>) {
    s.kind == "subtitle" && ImageForm(s).Some? && ImageForm(s).value in carried &&
    (ImageForm(s).value == "vobsub" ==> Matroska(src))
  }

  predicate Carries(s: Subtitle, carried: set<string>) {
    s.format.Some? && PackageForm(s) in carried
  }

  /** The language of the subtitle stream of each place, of two of one place the later's. */
  function Places(streams: seq<Stream>, n: nat): map<int, string>
    requires n <= |streams|
  {
    if n == 0 then map[]
    else
      var m, s := Places(streams, n - 1), streams[n - 1];
      if s.kind == "subtitle" && s.index.Some? then m[s.index.value := LanguageOf(s)] else m
  }

  /** The subtitle stream of a place is the last that has it. */
  lemma {:induction false} PlacesAre(streams: seq<Stream>, n: nat, i: nat)
    requires i < n <= |streams| && streams[i].kind == "subtitle" && streams[i].index.Some?
    requires forall j :: i < j < n && streams[j].kind == "subtitle" ==> streams[j].index != streams[i].index
    ensures streams[i].index.value in Places(streams, n) && Places(streams, n)[streams[i].index.value] ==
                                                            LanguageOf(streams[i])
  {
    if i < n - 1 {
      PlacesAre(streams, n - 1, i);
    }
  }

  lemma {:induction false} PlacedOnly(streams: seq<Stream>, n: nat, place: int) returns (i: nat)
    requires n <= |streams| && place in Places(streams, n)
    ensures i < n && streams[i].kind == "subtitle" && streams[i].index == Some(place)
    ensures forall j :: i < j < n && streams[j].kind == "subtitle" ==> streams[j].index != Some(place)
  {
    if streams[n - 1].kind == "subtitle" && streams[n - 1].index == Some(place) {
      i := n - 1;
    } else {
      i := PlacedOnly(streams, n - 1, place);
    }
  }

  /** A package's subtitle is of a language by its record, or by the stream it was made from. */
  predicate Speaks(src: SourceRecord, s: Subtitle, lang: string) {
    s.language == lang ||
    (s.stream.Some? && s.stream.value in Places(src.streams, |src.streams|) &&
     Places(src.streams, |src.streams|)[s.stream.value] == lang)
  }

  predicate Has(src: SourceRecord, pkg: PackageRecord, carried: set<string>, lang: string) {
    exists k :: 0 <= k < |pkg.subtitles| && Carries(pkg.subtitles[k], carried) && Speaks(src, pkg.subtitles[k], lang)
  }

  /** A tag of a form. */
  datatype Tag = Tag(form: string, tag: string)

  predicate Lacks(src: SourceRecord, pkg: PackageRecord, carried: set<string>, s: Stream) {
    Wanted(src, s, carried) && !Has(src, pkg, carried, LanguageOf(s))
  }

  /** The image subtitles of the original the package carries none of in their language. */
  function Missing(src: SourceRecord, pkg: PackageRecord, carried: set<string>): set<Tag> {
    set i | 0 <= i < |src.streams| && Lacks(src, pkg, carried, src.streams[i]) ::
      Tag(ImageForm(src.streams[i]).GetOr(""), TagOf(src.streams[i]))
  }

  /** A language an image subtitle is wanted in, with its form and its tag. */
  datatype Wish = Wish(language: string, tag: Tag)

  function WishOf(s: Stream): Wish {
    Wish(LanguageOf(s), Tag(ImageForm(s).GetOr(""), TagOf(s)))
  }

  /** What the first n streams want. */
  function Wishes(src: SourceRecord, carried: set<string>, n: nat): set<Wish>
    requires n <= |src.streams|
  {
    set i | 0 <= i < n && Wanted(src, src.streams[i], carried) :: WishOf(src.streams[i])
  }

  lemma WishesOneMore(src: SourceRecord, carried: set<string>, n: nat)
    requires n < |src.streams|
    ensures Wishes(src, carried, n + 1) ==
            Wishes(src, carried, n) + if Wanted(src, src.streams[n], carried) then {WishOf(src.streams[n])} else {}
  {
  }

  method WantedTags(src: SourceRecord, carried: set<string>) returns (wanted: set<Wish>, places: map<int, string>)
    ensures wanted == Wishes(src, carried, |src.streams|)
    ensures places == Places(src.streams, |src.streams|)
  {
    wanted, places := {}, map[];
    var matroska := Matroska(src);
    for i := 0 to |src.streams|
      invariant wanted == Wishes(src, carried, i)
      invariant places == Places(src.streams, i)
    {
      var s := src.streams[i];
      WishesOneMore(src, carried, i);
      if s.kind != "subtitle" {
        continue;
      }
      var form := ImageForm(s);
      if s.index.Some? {
        places := places[s.index.value := LanguageOf(s)];
      }
      if form.None? || form.value !in carried || (form.value == "vobsub" && !matroska) {
        continue;
      }
      wanted := wanted + {Wish(LanguageOf(s), Tag(form.value, TagOf(s)))};
    }
  }

  /** The languages of the package's subtitles of a form the packager carries. */
  method Carried(src: SourceRecord, pkg: PackageRecord, carried: set<string>, places: map<int, string>)
    returns (has: set<string>)
    requires places == Places(src.streams, |src.streams|)
    ensures forall l :: l in has <==> Has(src, pkg, carried, l)
  {
    has := {};
    for k := 0 to |pkg.subtitles|
      invariant forall l :: l in has <==>
        exists j :: 0 <= j < k && Carries(pkg.subtitles[j], carried) && Speaks(src, pkg.subtitles[j], l)
    {
      var s := pkg.subtitles[k];
      if s.format.None? || PackageForm(s) !in carried {
        continue;
      }
      has := has + {s.language};
      if s.stream.Some? && s.stream.value in places {
        has := has + {places[s.stream.value]};
      }
    }
  }

  lemma NoWish(src: SourceRecord, pkg: PackageRecord, carried: set<string>)
    ensures Wishes(src, carried, |src.streams|) == {} ==> Missing(src, pkg, carried) == {}
  {
    forall i | 0 <= i < |src.streams| && Wanted(src, src.streams[i], carried)
      ensures Wishes(src, carried, |src.streams|) != {}
    {
      assert WishOf(src.streams[i]) in Wishes(src, carried, |src.streams|);
    }
  }

  method MissingImageSubtitles(src: SourceRecord, pkg: PackageRecord, carried: set<string>) returns (missing: set<Tag>)
    ensures missing == Missing(src, pkg, carried)
  {
    var wanted, places := WantedTags(src, carried);
    missing := {};
    if wanted == {} {
      NoWish(src, pkg, carried);
      return;
    }
    var has := Carried(src, pkg, carried, places);
    var left := wanted;
    while left != {}
      invariant left <= wanted
      invariant missing == set w | w in wanted && w !in left && w.language !in has :: w.tag
      decreases |left|
    {
      var wish :| wish in left;
      left := left - {wish};
      if wish.language !in has {
        missing := missing + {wish.tag};
      }
    }
    forall x | x in missing ensures x in Missing(src, pkg, carried) {
      var w :| w in wanted && w.language !in has && w.tag == x;
    }
    forall i | 0 <= i < |src.streams| && Lacks(src, pkg, carried, src.streams[i])
      ensures WishOf(src.streams[i]).tag in missing
    {
      assert WishOf(src.streams[i]) in wanted;
    }
  }

  /** A stream is an image subtitle the packager carries exactly when it is a subtitle of a form carried, VobSub of a
      Matroska original alone; its package has one in a language where a subtitle of a form carried is of that language
      itself, or was made from a stream of it. */
  lemma WantedIs(src: SourceRecord, pkg: PackageRecord, s: Stream, carried: set<string>, lang: string)
    ensures Wanted(src, s, carried) <==>
            s.kind == "subtitle" && ImageForm(s).Some? && ImageForm(s).value in carried &&
            !(ImageForm(s).value == "vobsub" &&
              !(src.format.Some? && Contains(Rules.Lower(src.format.value), "matroska")))
    ensures Has(src, pkg, carried, lang) <==>
            exists k :: 0 <= k < |pkg.subtitles| && pkg.subtitles[k].format.Some? &&
                        PackageForm(pkg.subtitles[k]) in carried &&
                        (pkg.subtitles[k].language == lang || MadeFrom(src, pkg.subtitles[k], lang))
  {
    forall k | 0 <= k < |pkg.subtitles| && pkg.subtitles[k].language != lang
      ensures Speaks(src, pkg.subtitles[k], lang) <==> MadeFrom(src, pkg.subtitles[k], lang)
    {
      SpeaksIs(src, pkg.subtitles[k], lang);
    }
  }

  /** The subtitle was made from a stream, the last of its place, of a language. */
  predicate MadeFrom(src: SourceRecord, s: Subtitle, lang: string) {
    exists i :: 0 <= i < |src.streams| && LastAt(src.streams, i, s.stream) && LanguageOf(src.streams[i]) == lang
  }

  predicate LastAt(streams: seq<Stream>, i: nat, place: Option<int>)
    requires i < |streams|
  {
    place.Some? && streams[i].kind == "subtitle" && streams[i].index == place &&
    forall j :: i < j < |streams| && streams[j].kind == "subtitle" ==> streams[j].index != place
  }

  lemma SpeaksIs(src: SourceRecord, s: Subtitle, lang: string)
    requires s.language != lang
    ensures Speaks(src, s, lang) <==> MadeFrom(src, s, lang)
  {
    var n := |src.streams|;
    if i :| 0 <= i < n && LastAt(src.streams, i, s.stream) && LanguageOf(src.streams[i]) == lang {
      PlacesAre(src.streams, n, i);
    }
    if Speaks(src, s, lang) {
      var i := PlacedOnly(src.streams, n, s.stream.value);
      PlacesAre(src.streams, n, i);
      assert LastAt(src.streams, i, s.stream);
    }
  }

  /** Nothing is missed exactly when every image subtitle of the original of a form carried has, in its package, one of
      a form carried in its language. */
  lemma MissesNothing(src: SourceRecord, pkg: PackageRecord, carried: set<string>)
    ensures Missing(src, pkg, carried) == {} <==>
            forall i :: 0 <= i < |src.streams| && Wanted(src, src.streams[i], carried) ==>
              Has(src, pkg, carried, LanguageOf(src.streams[i]))
  {
    forall i | 0 <= i < |src.streams| && Lacks(src, pkg, carried, src.streams[i])
      ensures Missing(src, pkg, carried) != {}
    {
      assert Tag(ImageForm(src.streams[i]).GetOr(""), TagOf(src.streams[i])) in Missing(src, pkg, carried);
    }
    forall i | 0 <= i < |src.streams| && Wanted(src, src.streams[i], carried) && Missing(src, pkg, carried) == {}
      ensures Has(src, pkg, carried, LanguageOf(src.streams[i]))
    {
      assert !Lacks(src, pkg, carried, src.streams[i]);
    }
  }

  // ---- its surround

  /** The package lacks the surround of its original: it has none of it, or fewer channels than its companion would. */
  predicate SurroundLost(src: Essence, pkg: Essence) {
    (src.surround && !pkg.surround) ||
    (src.channels.Some? && src.channels.value > 2.0 &&
     pkg.channels.GetOr(0.0) < if src.channels.value < 6.0 then src.channels.value else 6.0)
  }

  /** A package keeps the surround of its original exactly when it has some where the original has, and, of an original
      of more than two channels, as many as it or six. */
  lemma SurroundKept(src: Essence, pkg: Essence)
    ensures !SurroundLost(src, pkg) <==>
            (src.surround ==> pkg.surround) &&
            (src.channels.GetOr(0.0) > 2.0 ==>
               pkg.channels.GetOr(0.0) >= src.channels.value || pkg.channels.GetOr(0.0) >= 6.0)
  {
  }

  /** The packager makes no companion of the original, as its record lists its tracks. */
  predicate NoCompanion(r: Records, p: Rules.PackagerRules, l: Audio.Languages) {
    r.src.Some? && r.src.value.tracks != [] &&
    Audio.Companions(r.src.value.tracks, p.Tracks(), l, p.PreferredOf(l)) == []
  }
}
