/**
 The check of a title against the rules (internal/compliance/evaluate.go): the rules it is found to break, those it
 could not be held against, and which rules are off for every title (report.go). The three are written apart; that they
 agree with each other, and with what the rules mean, is proved here.
 */
module Evaluation {
  import opened Wrappers
  import opened Titles
  import opened Rules
  import Audio
  import Text

  datatype Rule = NotPackaged | PackagingFailed | OverBitrateCap | OverSizeCap | NoSurround | ImageSubtitlesMissing
                | VideoNotHevc

  /** In the order the report lists them. */
  const RULES := [NotPackaged, PackagingFailed, OverBitrateCap, OverSizeCap, NoSurround, ImageSubtitlesMissing,
                  VideoNotHevc]

  /** The rules a package is held against. */
  const OF_PACKAGES := {OverBitrateCap, OverSizeCap, NoSurround, ImageSubtitlesMissing, VideoNotHevc}

  /** How far above its cap a video may measure. */
  const TOLERANCE := 0.03
  const GIB := 1073741824.0

  /** Why processing a title again can't help. */
  datatype Blocked = DolbyVision(profile: string) | NoVideo

  datatype Result = Result(findings: seq<Rule>, unchecked: seq<Rule>, blocked: Option<Blocked>, unread: bool)

  // ---- what the check finds

  /** An H.264 copy that making the package again would leave alone: no cap holds for it. */
  predicate KeptCopy(t: Title, r: Records, tr: TranscoderRules) {
    CopiedOf(t, r).Yes? && IsH264(CodecOf(t, r)) && tr.CopiesH264()
  }

  predicate EncodedWithin(s: Step, limit: real) {
    s.Is({Done}) && s.maxrate.Some? && s.maxrate.value <= limit
  }

  predicate FindsRate(t: Title, r: Records, rs: RulesState) {
    rs.transcoder.Some? && !KeptCopy(t, r, rs.transcoder.value) && BucketOf(t, r, rs).Some? &&
    var limit := rs.transcoder.value.LimitOf(t.kind, BucketOf(t, r, rs).value);
    limit.Some? && RateOf(r, CopiedOf(t, r)).Some? &&
    RateOf(r, CopiedOf(t, r)).value.bps > limit.value * 1000000.0 * (1.0 + TOLERANCE) &&
    !(CopiedOf(t, r).No? && EncodedWithin(t.transcode, limit.value))
  }

  predicate Larger(t: Title, r: Records, gib: real) {
    OriginalBytes(t, r).Some? && OriginalBytes(t, r).value as real > gib * GIB
  }

  predicate FindsSize(t: Title, r: Records, rs: RulesState) {
    rs.transcoder.Some? && !KeptCopy(t, r, rs.transcoder.value) && t.kind == "movie" &&
    Positive(rs.transcoder.value.caps.movieMaxGiB) && CopiedOf(t, r).Yes? &&
    Larger(t, r, rs.transcoder.value.caps.movieMaxGiB.value)
  }

  predicate FindsSurround(r: Records, rs: RulesState) {
    rs.packager.Some? && rs.packager.value.SurroundOn() && !rs.packager.value.Tracks().Unknown? &&
    r.srcEssence.Some? && r.pkgEssence.Some? && SurroundLost(r.srcEssence.value, r.pkgEssence.value) &&
    !NoCompanion(r, rs.packager.value, rs.languages)
  }

  predicate FindsImages(r: Records, rs: RulesState) {
    rs.packager.Some? && rs.packager.value.imageSubtitles.Some? && r.src.Some? && r.pkg.Some? &&
    Missing(r.src.value, r.pkg.value, rs.packager.value.Carried()) != {}
  }

  predicate FindsCodec(t: Title, r: Records, rs: RulesState) {
    rs.transcoder.Some? && rs.transcoder.value.HevcRequired() && CodecOf(t, r) != "" && !IsHevc(CodecOf(t, r))
  }

  predicate Ended(s: Step) {
    s.Is({Failed, Skipped})
  }

  predicate Running(s: Step) {
    s.Is({Titles.Pending, InProgress})
  }

  function UnpackagedOf(t: Title): seq<Rule> {
    if t.discImage || Ended(t.transcode) || Ended(t.package) then [PackagingFailed]
    else if !t.hasOriginal || Running(t.transcode) || Running(t.package) then []
    else [NotPackaged]
  }

  function If(b: bool, rule: Rule): seq<Rule> {
    if b then [rule] else []
  }

  /** Of each rule of a package, whether something holds of it. */
  datatype Marks = Marks(rate: bool, size: bool, surround: bool, images: bool, codec: bool) {
    predicate Has(rule: Rule) {
      match rule
      case OverBitrateCap => rate
      case OverSizeCap => size
      case NoSurround => surround
      case ImageSubtitlesMissing => images
      case VideoNotHevc => codec
      case _ => false
    }

    /** The rules marked, in the report's order. */
    function Rules(): (out: seq<Rule>)
      ensures forall rule :: rule in out <==> Has(rule)
    {
      If(rate, OverBitrateCap) + If(size, OverSizeCap) + If(surround, NoSurround) + If(images, ImageSubtitlesMissing) +
      If(codec, VideoNotHevc)
    }
  }

  function FoundOf(t: Title, r: Records, rs: RulesState): Marks {
    Marks(FindsRate(t, r, rs), FindsSize(t, r, rs), FindsSurround(r, rs), FindsImages(r, rs), FindsCodec(t, r, rs))
  }

  function FindingsOf(t: Title, r: Records, rs: RulesState): seq<Rule> {
    if !t.Packaged() then UnpackagedOf(t) else FoundOf(t, r, rs).Rules()
  }

  // ---- what it could not hold against the rules

  predicate LeavesRate(t: Title, r: Records, rs: RulesState) {
    rs.transcoder.Some? && !KeptCopy(t, r, rs.transcoder.value) &&
    if BucketOf(t, r, rs).None? then !rs.transcoder.value.AllowsAnyRate()
    else
      var c := rs.transcoder.value.CapOf(t.kind, BucketOf(t, r, rs).value);
      c.None? || (c.value > 0.0 && RateOf(r, CopiedOf(t, r)).None?)
  }

  predicate LeavesSize(t: Title, r: Records, rs: RulesState) {
    rs.transcoder.Some? && !KeptCopy(t, r, rs.transcoder.value) && t.kind == "movie" &&
    var g := rs.transcoder.value.caps.movieMaxGiB;
    g.None? || (g.value > 0.0 && (OriginalBytes(t, r).None? || (Larger(t, r, g.value) && CopiedOf(t, r).Unknown?)))
  }

  predicate LeavesSurround(r: Records, rs: RulesState) {
    rs.packager.Some? &&
    var p := rs.packager.value;
    p.surroundAudio.None? || (p.SurroundOn() && (r.srcEssence.None? || r.pkgEssence.None? || p.Tracks().Unknown?))
  }

  predicate LeavesImages(r: Records, rs: RulesState) {
    rs.packager.Some? &&
    var forms := rs.packager.value.imageSubtitles;
    forms.None? || (forms.value != [] && (r.src.None? || r.pkg.None?))
  }

  predicate LeavesCodec(t: Title, r: Records, rs: RulesState) {
    rs.transcoder.Some? &&
    (rs.transcoder.value.ladder.None? || (rs.transcoder.value.HevcRequired() && CodecOf(t, r) == ""))
  }

  function LeftOf(t: Title, r: Records, rs: RulesState): Marks {
    Marks(LeavesRate(t, r, rs), LeavesSize(t, r, rs), LeavesSurround(r, rs), LeavesImages(r, rs), LeavesCodec(t, r, rs))
  }

  function UncheckedOf(t: Title, r: Records, rs: RulesState): seq<Rule> {
    if !t.Packaged() then [] else LeftOf(t, r, rs).Rules()
  }

  // ---- why processing it again can't help

  predicate Refuses(tr: Option<TranscoderRules>, profile: string) {
    var key := "profile" + profile;
    var said := if tr.Some? && key in tr.value.dolbyVision then tr.value.dolbyVision[key] else "";
    if profile == "7" then said == "" || said == "refused"
    else (|profile| >= 2 && profile[|profile| - 2..] == ".0") || said == "refused"
  }

  predicate RefusedStep(s: Step, tr: Option<TranscoderRules>) {
    Ended(s) && s.refused.Some? && Refuses(tr, s.refused.value)
  }

  /** The first stream of video, which the transcoder plans. */
  function FirstVideo(streams: seq<Stream>): Option<Stream> {
    if streams == [] then None else if streams[0].IsVideo() then Some(streams[0]) else FirstVideo(streams[1..])
  }

  function BlockedOf(t: Title, r: Records, tr: Option<TranscoderRules>): Option<Blocked> {
    if RefusedStep(t.transcode, tr) then Some(DolbyVision(t.transcode.refused.value))
    else if RefusedStep(t.package, tr) then Some(DolbyVision(t.package.refused.value))
    else if r.Streams() == [] then None
    else
      match FirstVideo(r.Streams())
      case None => Some(NoVideo)
      case Some(s) => if s.dolbyVision.Some? && Refuses(tr, s.dolbyVision.value)
          then Some(DolbyVision(s.dolbyVision.value)) else None
  }

  function ResultOf(t: Title, r: Records, rs: RulesState): Result {
    Result(FindingsOf(t, r, rs), UncheckedOf(t, r, rs), BlockedOf(t, r, rs.transcoder), r.unread)
  }

  // ---- the check itself

  method BlockedBy(t: Title, r: Records, tr: Option<TranscoderRules>) returns (b: Option<Blocked>)
    ensures b == BlockedOf(t, r, tr)
  {
    var steps := [t.transcode, t.package];
    for i := 0 to 2
      invariant forall k :: 0 <= k < i ==> !RefusedStep(steps[k], tr)
    {
      var s := steps[i];
      if !Ended(s) || s.refused.None? {
        continue;
      }
      if Refuses(tr, s.refused.value) {
        assert i == 1 ==> !RefusedStep(steps[0], tr);
        return Some(DolbyVision(s.refused.value));
      }
    }
    assert !RefusedStep(steps[0], tr) && !RefusedStep(steps[1], tr);
    if r.src.None? || |r.src.value.streams| == 0 {
      return None;
    }
    var streams := r.src.value.streams;
    for i := 0 to |streams|
      invariant FirstVideo(streams) == FirstVideo(streams[i..])
    {
      var s := streams[i];
      if s.kind != "video" || s.cover {
        continue;
      }
      if s.dolbyVision.Some? && Refuses(tr, s.dolbyVision.value) {
        return Some(DolbyVision(s.dolbyVision.value));
      }
      return None;
    }
    b := Some(NoVideo);
  }

  /** The transcoder's rules a packaged title could not be held against: the bit rate's, the size's. */
  method CapsLeft(t: Title, r: Records, rs: RulesState, copied: Copied, bucket: Option<int>)
    returns (rate: bool, size: bool)
    requires copied == CopiedOf(t, r) && bucket == BucketOf(t, r, rs)
    ensures rate == LeavesRate(t, r, rs) && size == LeavesSize(t, r, rs)
  {
    rate, size := false, false;
    if rs.transcoder.None? {
      return;
    }
    var tr := rs.transcoder.value;
    if copied.Yes? && IsH264(CodecOf(t, r)) && tr.CopiesH264() {
      return;
    }
    if bucket.None? {
      rate := !tr.AllowsAnyRate();
    } else if tr.CapOf(t.kind, bucket.value).None? {
      rate := true;
    } else if tr.CapOf(t.kind, bucket.value).value > 0.0 {
      var measured := VideoRate(r, copied);
      rate := measured.None?;
    }
    if t.kind == "movie" {
      var g, bytes := tr.caps.movieMaxGiB, OriginalBytes(t, r);
      if g.None? {
        size := true;
      } else if g.value <= 0.0 {
      } else if bytes.None? {
        size := true;
      } else if bytes.value as real > g.value * GIB && copied.Unknown? {
        size := true;
      }
    }
  }

  method TracksLeft(r: Records, rs: RulesState) returns (surround: bool, images: bool)
    ensures surround == LeavesSurround(r, rs) && images == LeavesImages(r, rs)
  {
    surround, images := false, false;
    if rs.packager.Some? {
      var p := rs.packager.value;
      surround := p.surroundAudio.None? ||
                  (p.SurroundOn() && (r.srcEssence.None? || r.pkgEssence.None? || p.Tracks().Unknown?));
      images := p.imageSubtitles.None? || (|p.imageSubtitles.value| > 0 && (r.src.None? || r.pkg.None?));
    }
  }

  method UncheckedRules(t: Title, r: Records, rs: RulesState, copied: Copied, bucket: Option<int>)
    returns (out: seq<Rule>)
    requires copied == CopiedOf(t, r) && bucket == BucketOf(t, r, rs)
    ensures out == LeftOf(t, r, rs).Rules()
  {
    var rate, size := CapsLeft(t, r, rs, copied, bucket);
    var codec := rs.transcoder.Some? &&
                 (rs.transcoder.value.ladder.None? || (rs.transcoder.value.HevcRequired() && CodecOf(t, r) == ""));
    var surround, images := TracksLeft(r, rs);
    var off := Marks(rate, size, surround, images, codec);
    out := [];
    for i := 0 to |RULES|
      invariant out == MarkedOf(off, i)
    {
      if off.Has(RULES[i]) {
        out := out + [RULES[i]];
      }
    }
    MarkedAll(off);
  }

  /** The rules marked among the first n of the report's. */
  function MarkedOf(m: Marks, n: nat): seq<Rule>
    requires n <= |RULES|
  {
    if n == 0 then [] else MarkedOf(m, n - 1) + If(m.Has(RULES[n - 1]), RULES[n - 1])
  }

  lemma MarkedAll(m: Marks)
    ensures MarkedOf(m, |RULES|) == m.Rules()
  {
    assert RULES[0] == NotPackaged && RULES[1] == PackagingFailed && RULES[2] == OverBitrateCap &&
           RULES[3] == OverSizeCap;
    assert RULES[4] == NoSurround && RULES[5] == ImageSubtitlesMissing && RULES[6] == VideoNotHevc;
    assert MarkedOf(m, 1) == [] && MarkedOf(m, 2) == [];
    assert MarkedOf(m, 3) == If(m.rate, OverBitrateCap);
    assert MarkedOf(m, 4) == If(m.rate, OverBitrateCap) + If(m.size, OverSizeCap);
    assert MarkedOf(m, 5) == If(m.rate, OverBitrateCap) + If(m.size, OverSizeCap) + If(m.surround, NoSurround);
    assert MarkedOf(m, 6) == MarkedOf(m, 5) + If(m.images, ImageSubtitlesMissing);
  }

  method Unpackaged(t: Title) returns (findings: seq<Rule>)
    ensures findings == UnpackagedOf(t)
  {
    findings := [];
    if t.discImage {
      findings := [PackagingFailed];
    } else if t.transcode.Is({Failed, Skipped}) {
      findings := [PackagingFailed];
    } else if t.package.Is({Failed, Skipped}) {
      findings := [PackagingFailed];
    } else if !t.hasOriginal {
    } else if t.transcode.Is({Titles.Pending, InProgress}) || t.package.Is({Titles.Pending, InProgress}) {
    } else {
      // a version taken in without a package, a pipeline that ended without one, or none
      findings := [NotPackaged];
    }
  }

  /** Whether a packaged title breaks the transcoder's caps: the bit rate's, the size's. */
  method OverCaps(t: Title, r: Records, rs: RulesState, copied: Copied, bucket: Option<int>)
    returns (rate: bool, size: bool)
    requires copied == CopiedOf(t, r) && bucket == BucketOf(t, r, rs)
    ensures rate == FindsRate(t, r, rs) && size == FindsSize(t, r, rs)
  {
    rate, size := false, false;
    if rs.transcoder.None? {
      return;
    }
    var tr := rs.transcoder.value;
    if copied.Yes? && IsH264(CodecOf(t, r)) && tr.CopiesH264() {
      return;
    }
    if bucket.Some? {
      var limit := tr.LimitOf(t.kind, bucket.value);
      if limit.Some? {
        var measured := VideoRate(r, copied);
        rate := measured.Some? && measured.value.bps > limit.value * 1000000.0 * (1.0 + TOLERANCE) &&
                !(copied.No? && EncodedWithin(t.transcode, limit.value));
      }
    }
    var g, bytes := tr.caps.movieMaxGiB, OriginalBytes(t, r);
    size := t.kind == "movie" && g.Some? && g.value > 0.0 && copied.Yes? && bytes.Some? &&
            bytes.value as real > g.value * GIB;
  }

  /** Whether a packaged title lacks tracks of its original: surround, image subtitles. */
  method Lacking(r: Records, rs: RulesState) returns (surround: bool, images: bool)
    ensures surround == FindsSurround(r, rs) && images == FindsImages(r, rs)
  {
    surround, images := false, false;
    if rs.packager.None? {
      return;
    }
    var p := rs.packager.value;
    if p.SurroundOn() && !p.Tracks().Unknown? && r.srcEssence.Some? && r.pkgEssence.Some? &&
       SurroundLost(r.srcEssence.value, r.pkgEssence.value) {
      surround := true;
      if r.src.Some? && r.src.value.tracks != [] {
        var companions := Audio.CompanionTracks(r.src.value.tracks, p.Tracks(), rs.languages,
                                                p.PreferredOf(rs.languages));
        surround := companions != [];
      }
    }
    if p.imageSubtitles.Some? && r.src.Some? && r.pkg.Some? {
      var missing := MissingImageSubtitles(r.src.value, r.pkg.value, p.Carried());
      images := missing != {};
    }
  }

  method Add(m: Marks) returns (findings: seq<Rule>)
    ensures findings == m.Rules()
  {
    findings := [];
    if m.rate {
      findings := findings + [OverBitrateCap];
    }
    if m.size {
      findings := findings + [OverSizeCap];
    }
    if m.surround {
      findings := findings + [NoSurround];
    }
    if m.images {
      findings := findings + [ImageSubtitlesMissing];
    }
    if m.codec {
      findings := findings + [VideoNotHevc];
    }
  }

  method Findings(t: Title, r: Records, rs: RulesState, copied: Copied, bucket: Option<int>)
    returns (findings: seq<Rule>)
    requires copied == CopiedOf(t, r) && bucket == BucketOf(t, r, rs)
    ensures findings == FoundOf(t, r, rs).Rules()
  {
    var rate, size := OverCaps(t, r, rs, copied, bucket);
    var surround, images := Lacking(r, rs);
    var codec := rs.transcoder.Some? && rs.transcoder.value.HevcRequired() && CodecOf(t, r) != "" &&
        !IsHevc(CodecOf(t, r));
    var marks := Marks(rate, size, surround, images, codec);
    assert marks == FoundOf(t, r, rs);
    findings := Add(marks);
  }

  method Evaluate(t: Title, r: Records, rs: RulesState) returns (res: Result)
    ensures res == ResultOf(t, r, rs)
  {
    var findings, unchecked: seq<Rule> := [], [];
    if !t.Packaged() {
      findings := Unpackaged(t);
    } else {
      var copied := CopiedOf(t, r);
      var bucket := Bucket(t, r, rs);
      findings := Findings(t, r, rs, copied, bucket);
      unchecked := UncheckedRules(t, r, rs, copied, bucket);
    }
    var blocked := BlockedBy(t, r, rs.transcoder);
    res := Result(findings, unchecked, blocked, r.unread);
  }

  // ---- what the rules mean

  /** Its video runs within its cap: at most the cap's maxrate, of a measure a little above it, or as its encode was
      capped. */
  predicate RateWithin(t: Title, r: Records, tr: TranscoderRules, bucket: int) {
    tr.CapOf(t.kind, bucket).Some? &&
    (tr.CapOf(t.kind, bucket).value > 0.0 ==>
       RateOf(r, CopiedOf(t, r)).Some? &&
       var limit := tr.MaxrateOf(t.kind, bucket).GetOr(0.0);
       RateOf(r, CopiedOf(t, r)).value.bps <= limit * 1030000.0 ||
       (CopiedOf(t, r).No? && t.transcode.status == Some(Done) && t.transcode.maxrate.Some? &&
        t.transcode.maxrate.value <= limit))
  }

  /** A packaged title is within a rule, or the rule is not in force for it: what the rules ask of it, said of each
      apart from how the check looks for the breaks of it. */
  predicate Within(rule: Rule, t: Title, r: Records, rs: RulesState) {
    match rule
    case OverBitrateCap =>
      rs.transcoder.Some? ==>
        var tr := rs.transcoder.value;
        (CopiedOf(t, r).Yes? && IsH264(CodecOf(t, r)) && tr.CopiesH264()) ||
        tr.AllowsAnyRate() ||
        (BucketOf(t, r, rs).Some? && RateWithin(t, r, tr, BucketOf(t, r, rs).value))
    case OverSizeCap =>
      rs.transcoder.Some? && t.kind == "movie" ==>
        var tr := rs.transcoder.value;
        (CopiedOf(t, r).Yes? && IsH264(CodecOf(t, r)) && tr.CopiesH264()) ||
        (tr.caps.movieMaxGiB.Some? &&
         (tr.caps.movieMaxGiB.value > 0.0 ==>
            OriginalBytes(t, r).Some? &&
            (CopiedOf(t, r).No? ||
             OriginalBytes(t, r).value as real <= tr.caps.movieMaxGiB.value * 1024.0 * 1024.0 * 1024.0)))
    case NoSurround =>
      rs.packager.Some? ==>
        var p := rs.packager.value;
        p.surroundAudio.Some? &&
        (p.SurroundOn() ==>
           r.srcEssence.Some? && r.pkgEssence.Some? && !p.Tracks().Unknown? &&
           (SurroundLost(r.srcEssence.value, r.pkgEssence.value) ==> NoCompanion(r, p, rs.languages)))
    case ImageSubtitlesMissing =>
      rs.packager.Some? ==>
        var forms := rs.packager.value.imageSubtitles;
        forms.Some? &&
        (forms.value != [] ==>
           r.src.Some? && r.pkg.Some? &&
           forall i :: 0 <= i < |r.src.value.streams| &&
                       Wanted(r.src.value, r.src.value.streams[i], rs.packager.value.Carried()) ==>
                         Has(r.src.value, r.pkg.value, rs.packager.value.Carried(), LanguageOf(r.src.value.streams[i])))
    case VideoNotHevc =>
      rs.transcoder.Some? ==>
        rs.transcoder.value.ladder.Some? && (rs.transcoder.value.HevcRequired() ==> IsHevc(CodecOf(t, r)))
    case _ => true
  }

  predicate Finds(rule: Rule, t: Title, r: Records, rs: RulesState) {
    rule in FindingsOf(t, r, rs)
  }

  predicate Leaves(rule: Rule, t: Title, r: Records, rs: RulesState) {
    rule in UncheckedOf(t, r, rs)
  }

  predicate ExactlyOne(a: bool, b: bool, c: bool) {
    (a || b || c) && !(a && b) && !(a && c) && !(b && c)
  }

  lemma FindsIs(rule: Rule, t: Title, r: Records, rs: RulesState)
    requires t.Packaged()
    ensures Finds(rule, t, r, rs) <==> FoundOf(t, r, rs).Has(rule)
    ensures Leaves(rule, t, r, rs) <==> LeftOf(t, r, rs).Has(rule)
  {
  }

  /** The check finds a rule broken, leaves it unchecked, or the title is within it: of each rule of a package exactly
      one. */
  lemma Trichotomy(rule: Rule, t: Title, r: Records, rs: RulesState)
    requires t.Packaged() && rule in OF_PACKAGES
    ensures ExactlyOne(Finds(rule, t, r, rs), Leaves(rule, t, r, rs), Within(rule, t, r, rs))
  {
    FindsIs(rule, t, r, rs);
    match rule
    case OverBitrateCap => RateTrichotomy(t, r, rs);
    case OverSizeCap => SizeTrichotomy(t, r, rs);
    case NoSurround => SurroundTrichotomy(t, r, rs);
    case ImageSubtitlesMissing => ImagesTrichotomy(t, r, rs);
    case VideoNotHevc => CodecTrichotomy(t, r, rs);
  }

  lemma SizeTrichotomy(t: Title, r: Records, rs: RulesState)
    ensures ExactlyOne(FindsSize(t, r, rs), LeavesSize(t, r, rs), Within(OverSizeCap, t, r, rs))
  {
  }

  lemma SurroundTrichotomy(t: Title, r: Records, rs: RulesState)
    ensures ExactlyOne(FindsSurround(r, rs), LeavesSurround(r, rs), Within(NoSurround, t, r, rs))
  {
  }

  lemma CodecTrichotomy(t: Title, r: Records, rs: RulesState)
    ensures ExactlyOne(FindsCodec(t, r, rs), LeavesCodec(t, r, rs), Within(VideoNotHevc, t, r, rs))
  {
    assert !IsHevc("");
  }

  lemma RateTrichotomy(t: Title, r: Records, rs: RulesState)
    ensures ExactlyOne(FindsRate(t, r, rs), LeavesRate(t, r, rs), Within(OverBitrateCap, t, r, rs))
  {
    if rs.transcoder.Some? && BucketOf(t, r, rs).Some? {
      var tr := rs.transcoder.value;
      var c := tr.CapOf(t.kind, BucketOf(t, r, rs).value);
      assert c in [tr.caps.movie1080, tr.caps.movie2160, tr.caps.episode1080, tr.caps.episode2160];
    }
  }

  lemma ImagesTrichotomy(t: Title, r: Records, rs: RulesState)
    ensures ExactlyOne(FindsImages(r, rs), LeavesImages(r, rs), Within(ImageSubtitlesMissing, t, r, rs))
  {
    if rs.packager.Some? && rs.packager.value.imageSubtitles.Some? {
      var p := rs.packager.value;
      if p.imageSubtitles.value == [] {
        assert p.Carried() == {};
      }
      if r.src.Some? && r.pkg.Some? {
        MissesNothing(r.src.value, r.pkg.value, p.Carried());
      }
    }
  }

  /** A packaged title of no finding and nothing unchecked is within every rule in force, and only such a title is. */
  lemma CleanIsWithin(t: Title, r: Records, rs: RulesState)
    requires t.Packaged()
    ensures FindingsOf(t, r, rs) == [] && UncheckedOf(t, r, rs) == [] <==>
            forall rule :: rule in OF_PACKAGES ==> Within(rule, t, r, rs)
  {
    forall rule | rule in OF_PACKAGES
      ensures ExactlyOne(Finds(rule, t, r, rs), Leaves(rule, t, r, rs), Within(rule, t, r, rs))
    {
      Trichotomy(rule, t, r, rs);
    }
    if FindingsOf(t, r, rs) != [] {
      var rule := FindingsOf(t, r, rs)[0];
      FindsIs(rule, t, r, rs);
      assert Finds(rule, t, r, rs) && rule in OF_PACKAGES;
    }
    if UncheckedOf(t, r, rs) != [] {
      var rule := UncheckedOf(t, r, rs)[0];
      FindsIs(rule, t, r, rs);
      assert Leaves(rule, t, r, rs) && rule in OF_PACKAGES;
    }
  }

  /** Processing the title ended without a package: it is a disc image, or a step of it failed or was skipped. */
  predicate Stopped(t: Title) {
    t.discImage || t.transcode.status in {Some(Failed), Some(Skipped)} ||
    t.package.status in {Some(Failed), Some(Skipped)}
  }

  /** A step of the title is under way. */
  predicate UnderWay(t: Title) {
    Some(InProgress) in {t.transcode.status, t.package.status} ||
    Some(Titles.Pending) in {t.transcode.status, t.package.status}
  }

  /** Of a title without a package something is found, that its processing ended or else that it has none, exactly
      unless its original is gone or a step of it is under way; and nothing is left unchecked. */
  lemma UnpackagedIsFound(t: Title, r: Records, rs: RulesState)
    requires !t.Packaged()
    ensures FindingsOf(t, r, rs) == [] <==> !Stopped(t) && (!t.hasOriginal || UnderWay(t))
    ensures Finds(PackagingFailed, t, r, rs) <==> Stopped(t)
    ensures Finds(NotPackaged, t, r, rs) <==> !Stopped(t) && t.hasOriginal && !UnderWay(t)
    ensures |FindingsOf(t, r, rs)| <= 1 && UncheckedOf(t, r, rs) == []
  {
  }

  /** A package is neither said to be missing nor to have failed. */
  lemma PackagedIsNot(t: Title, r: Records, rs: RulesState)
    requires t.Packaged()
    ensures !Finds(PackagingFailed, t, r, rs) && !Finds(NotPackaged, t, r, rs)
  {
    FindsIs(PackagingFailed, t, r, rs);
    FindsIs(NotPackaged, t, r, rs);
  }

  /** Surround can be asked for of a package: the packager makes companions, of tracks it names, and both essences are
      there and say that some was lost. */
  predicate Asked(r: Records, p: PackagerRules) {
    p.SurroundOn() && !p.Tracks().Unknown? && r.srcEssence.Some? && r.pkgEssence.Some? &&
    SurroundLost(r.srcEssence.value, r.pkgEssence.value)
  }

  /** Of an original whose record lists its audio, a package that lost surround is said to lack it exactly when a track
      of more than two channels is for the film (no commentary, of a packager that makes companions of every track):
      one that gets a companion when the package is made again. */
  lemma LacksACompanion(t: Title, r: Records, rs: RulesState)
    requires t.Packaged() && r.src.Some? && r.src.value.tracks != []
    ensures var tracks := r.src.value.tracks;
            Finds(NoSurround, t, r, rs) <==>
            rs.packager.Some? && Asked(r, rs.packager.value) &&
            exists i :: 0 <= i < |tracks| && Audio.Deserves(tracks[i], rs.packager.value.Tracks())
    ensures Finds(NoSurround, t, r, rs) ==>
              var p := rs.packager.value;
              exists i :: i in Audio.Companions(r.src.value.tracks, p.Tracks(), rs.languages,
                                                p.PreferredOf(rs.languages)) &&
                          i < |r.src.value.tracks| && Audio.Deserves(r.src.value.tracks[i], p.Tracks())
  {
    FindsIs(NoSurround, t, r, rs);
    if rs.packager.Some? {
      var p := rs.packager.value;
      var out := Audio.Companions(r.src.value.tracks, p.Tracks(), rs.languages, p.PreferredOf(rs.languages));
      Audio.DeservingHaveOne(r.src.value.tracks, p.Tracks(), rs.languages, p.PreferredOf(rs.languages));
      assert out != [] ==> out[0] in out;
    }
  }

  /** A Dolby Vision profile is refused where the transcoder says so, profile 7 also where it says nothing, and every
      profile ending in .0. */
  lemma RefusesIs(tr: Option<TranscoderRules>, profile: string)
    ensures var said := if tr.Some? && "profile" + profile in tr.value.dolbyVision
                        then tr.value.dolbyVision["profile" + profile] else "";
            Refuses(tr, profile) <==>
            said == "refused" || (profile == "7" && said == "") ||
            exists x: string :: profile == x + ".0"
  {
    if |profile| >= 2 && profile[|profile| - 2..] == ".0" {
      assert profile == profile[..|profile| - 2] + ".0";
    }
    forall x: string | profile == x + ".0" ensures |profile| >= 2 && profile[|profile| - 2..] == ".0" {}
  }

  predicate RefusedAt(s: Step, tr: Option<TranscoderRules>) {
    s.status in {Some(Failed), Some(Skipped)} && s.refused.Some? && Refuses(tr, s.refused.value)
  }

  predicate RefusedIn(s: Stream, tr: Option<TranscoderRules>) {
    s.dolbyVision.Some? && Refuses(tr, s.dolbyVision.value)
  }

  /** Nothing blocks a title whose steps refused no profile and whose original, where its streams are known, has a video
      the first of which is of no profile refused. */
  lemma {:induction false} BlockedIs(t: Title, r: Records, tr: Option<TranscoderRules>, i: nat)
    requires i <= |r.Streams()| && forall j :: 0 <= j < i ==> r.Streams()[j].kind != "video" || r.Streams()[j].cover
    requires i < |r.Streams()| ==> r.Streams()[i].kind == "video" && !r.Streams()[i].cover
    ensures var refused := RefusedAt(t.transcode, tr) || RefusedAt(t.package, tr);
            (BlockedOf(t, r, tr).None? <==>
             !refused && (r.Streams() == [] || (i < |r.Streams()| && !RefusedIn(r.Streams()[i], tr)))) &&
            (BlockedOf(t, r, tr) == Some(NoVideo) <==> !refused && r.Streams() != [] && i == |r.Streams()|)
  {
    FirstVideoAt(r.Streams(), i);
  }

  lemma {:induction false} FirstVideoAt(streams: seq<Stream>, i: nat)
    requires i <= |streams| && forall j :: 0 <= j < i ==> !streams[j].IsVideo()
    requires i < |streams| ==> streams[i].IsVideo()
    ensures FirstVideo(streams) == if i < |streams| then Some(streams[i]) else None
  {
    if i > 0 {
      FirstVideoAt(streams[1..], i - 1);
    }
  }

  // ---- the rules off for every title

  /** The transcoder sets a bit rate cap. */
  predicate SetsARate(tr: TranscoderRules) {
    exists c :: c in [tr.caps.movie1080, tr.caps.movie2160, tr.caps.episode1080, tr.caps.episode2160] && c.Some? &&
           c.value != 0.0
  }

  function Rates(tr: TranscoderRules): set<Option<real>> {
    {tr.caps.movie1080, tr.caps.movie2160, tr.caps.episode1080, tr.caps.episode2160}
  }

  predicate OffRate(tr: TranscoderRules) {
    tr.minHeight.None? || tr.minWidth.None? || !SetsARate(tr)
  }

  function OffOf(rs: RulesState): Marks {
    Marks(rs.transcoder.None? || OffRate(rs.transcoder.value) || !rs.v2,
          rs.transcoder.None? || rs.transcoder.value.caps.movieMaxGiB.GetOr(0.0) == 0.0,
          rs.packager.None? || !rs.packager.value.SurroundOn() || rs.packager.value.Tracks().Unknown? || !rs.v2,
          rs.packager.None? || rs.packager.value.imageSubtitles.GetOr([]) == [] || !rs.v2,
          rs.transcoder.None? || !rs.transcoder.value.HevcRequired())
  }

  method RatesOff(tr: TranscoderRules) returns (off: bool)
    ensures off == OffRate(tr)
  {
    if tr.minHeight.None? || tr.minWidth.None? {
      return true;
    }
    var caps := [tr.caps.movie1080, tr.caps.movie2160, tr.caps.episode1080, tr.caps.episode2160];
    var checked := false;
    for i := 0 to |caps|
      invariant checked <==> exists k :: 0 <= k < i && caps[k].Some? && caps[k].value != 0.0
    {
      if caps[i].Some? && caps[i].value != 0.0 {
        checked := true;
      }
    }
    forall c | c in caps && c.Some? && c.value != 0.0 ensures checked {}
    if checked {
      var k :| 0 <= k < |caps| && caps[k].Some? && caps[k].value != 0.0;
      assert caps[k] in caps;
    }
    off := !checked;
  }

  method Coverage(rs: RulesState) returns (off: Marks)
    ensures off == OffOf(rs)
  {
    off := Marks(false, false, false, false, false);
    if rs.transcoder.None? {
      off := off.(rate := true, size := true, codec := true);
    } else {
      var tr := rs.transcoder.value;
      var rates := RatesOff(tr);
      off := off.(rate := rates);
      if tr.caps.movieMaxGiB.None? || tr.caps.movieMaxGiB.value == 0.0 {
        off := off.(size := true);
      }
      if !tr.HevcRequired() {
        off := off.(codec := true);
      }
    }
    if rs.packager.None? {
      off := off.(surround := true, images := true);
    } else {
      var p := rs.packager.value;
      if p.surroundAudio.None? || !p.SurroundOn() || p.Tracks().Unknown? {
        off := off.(surround := true);
      }
      if p.imageSubtitles.None? || |p.imageSubtitles.value| == 0 {
        off := off.(images := true);
      }
    }
    if !rs.v2 {
      off := off.(rate := true, surround := true, images := true);
    }
  }

  /** A rule said to be off is broken by no title, of records read as the layout keeps them. */
  lemma OffIsNeverFound(rule: Rule, t: Title, r: Records, rs: RulesState)
    requires OffOf(rs).Has(rule) && (!rs.v2 ==> r == NO_RECORDS)
    ensures !Finds(rule, t, r, rs)
  {
    if t.Packaged() {
      FindsIs(rule, t, r, rs);
      match rule {
        case OverBitrateCap => OffRateIsNeverFound(t, r, rs);
        case ImageSubtitlesMissing => ImagesTrichotomy(t, r, rs);
        case _ =>
      }
    }
  }

  lemma OffRateIsNeverFound(t: Title, r: Records, rs: RulesState)
    requires OffOf(rs).rate && (!rs.v2 ==> r == NO_RECORDS)
    ensures !FindsRate(t, r, rs)
  {
    if rs.transcoder.Some? && BucketOf(t, r, rs).Some? {
      var tr := rs.transcoder.value;
      var c := tr.CapOf(t.kind, BucketOf(t, r, rs).value);
      assert c in [tr.caps.movie1080, tr.caps.movie2160, tr.caps.episode1080, tr.caps.episode2160];
      if rs.v2 {
        assert !SetsARate(tr);
      } else {
        assert RateOf(NO_RECORDS, CopiedOf(t, r)).None?;
      }
    }
  }

  /** Which limits leave a rule to no title: one not reported, or 0, a ladder that makes no video HEVC, no surround
      track or an unknown choice of them, no image subtitles; bit rates, surround and image subtitles also in the
      older layout, and bit rates where the bucket's bounds are not reported. */
  lemma OffIs(rs: RulesState)
    ensures rs.transcoder.None? ==> OffOf(rs).rate && OffOf(rs).size && OffOf(rs).codec
    ensures rs.packager.None? ==> OffOf(rs).surround && OffOf(rs).images
    ensures !rs.v2 ==> OffOf(rs).rate && OffOf(rs).surround && OffOf(rs).images
    ensures rs.transcoder.Some? ==>
              var tr := rs.transcoder.value;
              (OffOf(rs).size <==> tr.caps.movieMaxGiB in {None, Some(0.0)}) &&
              (OffOf(rs).codec <==> !tr.HevcRequired()) &&
              (rs.v2 ==> (OffOf(rs).rate <==>
                          tr.minHeight.None? || tr.minWidth.None? || Rates(tr) <= {None, Some(0.0)}))
    ensures rs.packager.Some? && rs.v2 ==>
              var p := rs.packager.value;
              (OffOf(rs).surround <==> !p.SurroundOn() || p.Tracks().Unknown?) &&
              (OffOf(rs).images <==> p.imageSubtitles in {None, Some([])})
  {
    if rs.transcoder.Some? {
      SetsIs(rs.transcoder.value);
    }
  }

  lemma SetsIs(tr: TranscoderRules)
    ensures SetsARate(tr) <==> !(Rates(tr) <= {None, Some(0.0)})
  {
    var caps := [tr.caps.movie1080, tr.caps.movie2160, tr.caps.episode1080, tr.caps.episode2160];
    assert caps[0] in caps && caps[1] in caps && caps[2] in caps && caps[3] in caps;
    if !(Rates(tr) <= {None, Some(0.0)}) {
      var c :| c in Rates(tr) && c !in {None, Some(0.0)};
      assert c in caps && c.Some? && c.value != 0.0;
    }
  }

  /** Limits that say something: no cap is below 0, one of the smaller bucket alone leaves titles to it, and forms of
      image subtitles, where listed, name one there is. */
  predicate Sensible(rs: RulesState) {
    (rs.transcoder.Some? ==>
       var tr := rs.transcoder.value;
       (forall c :: c in Rates(tr) && c.Some? ==> c.value >= 0.0) && tr.caps.movieMaxGiB.GetOr(0.0) >= 0.0 &&
       (tr.minHeight.Some? && tr.minWidth.Some? ==> tr.minHeight.value > 0.0 && tr.minWidth.value > 0.0)) &&
    (rs.packager.Some? && rs.packager.value.imageSubtitles.GetOr([]) != [] ==>
       exists f :: f in rs.packager.value.Carried() && f in {"pgs", "vobsub", "dvb", "xsub"})
  }

  const NO_STEP := Step(None, None, None)
  const PLAIN := Title("", "movie", false, true, None, None, None, None, None, false, Some(""), None, None, NO_STEP,
                       NO_STEP)

  lemma RateBreaks(t: Title, r: Records, rs: RulesState, bucket: int, limit: real)
    requires rs.transcoder.Some? && CopiedOf(t, r).Unknown? && BucketOf(t, r, rs) == Some(bucket)
    requires rs.transcoder.value.LimitOf(t.kind, bucket) == Some(limit) && limit > 0.0
    requires RateOf(r, CopiedOf(t, r)) == Some(Rate(limit * 2000000.0, false))
    ensures FindsRate(t, r, rs)
  {
    assert limit * 1000000.0 * (1.0 + TOLERANCE) < limit * 2000000.0;
  }

  /** The kind and the bucket of a cap above 0. */
  lemma SomeRate(tr: TranscoderRules) returns (kind: string, tall: bool)
    requires SetsARate(tr) && forall c :: c in Rates(tr) && c.Some? ==> c.value >= 0.0
    ensures Positive(tr.CapOf(kind, if tall then 2160 else 1080))
  {
    var c :| c in [tr.caps.movie1080, tr.caps.movie2160, tr.caps.episode1080, tr.caps.episode2160] && c.Some? &&
             c.value != 0.0;
    assert c in Rates(tr);
    tall := c == tr.caps.movie2160 || c == tr.caps.episode2160;
    kind := if c == (if tall then tr.caps.movie2160 else tr.caps.movie1080) then "movie" else "episode";
    LimitIs(tr, kind, tall);
  }

  /** A title above the cap of its kind and its bucket. */
  lemma RateFound(rs: RulesState) returns (t: Title, r: Records)
    requires !OffOf(rs).rate && Sensible(rs)
    ensures t.Packaged() && FindsRate(t, r, rs)
  {
    var tr := rs.transcoder.value;
    var kind, tall := SomeRate(tr);
    LimitIs(tr, kind, tall);
    var bucket := if tall then 2160 else 1080;
    var limit := tr.LimitOf(kind, bucket).value;
    t, r := Sizing(kind, tr.minWidth.value, tr.minHeight.value, tall), TopRate(limit * 2000000.0);
    SizedIn(kind, tr, tall, limit * 2000000.0, rs);
    RateBreaks(t, r, rs, bucket, limit);
  }

  function Sizing(kind: string, width: real, height: real, tall: bool): Title {
    PLAIN.(kind := kind, pkgSize := Some(if tall then Size(width, height) else Size(width / 2.0, height / 2.0)))
  }

  lemma SizedIn(kind: string, tr: TranscoderRules, tall: bool, rate: real, rs: RulesState)
    requires rs.transcoder == Some(tr) && Positive(tr.minWidth) && Positive(tr.minHeight) && rate > 0.0
    ensures var t := Sizing(kind, tr.minWidth.value, tr.minHeight.value, tall);
            BucketOf(t, TopRate(rate), rs) == Some(if tall then 2160 else 1080) &&
            CopiedOf(t, TopRate(rate)).Unknown? &&
            RateOf(TopRate(rate), CopiedOf(t, TopRate(rate))) == Some(Rate(rate, false))
  {
    assert Extent(TopRate(rate).Streams(), 0) == Size(0.0, 0.0);
  }

  /** Records of a package whose video is measured at a rate. */
  function TopRate(rate: real): Records {
    NO_RECORDS.(pkg := Some(PackageRecord(None, None, [Video("", None, None, Some(rate), None)], [], [])))
  }

  /** A copied movie above the size cap. */
  lemma SizeFound(rs: RulesState) returns (t: Title, r: Records)
    requires !OffOf(rs).size && Sensible(rs)
    ensures t.Packaged() && FindsSize(t, r, rs)
  {
    var bytes := (rs.transcoder.value.caps.movieMaxGiB.value * GIB).Floor + 1;
    t := PLAIN.(transcode := NO_STEP.(status := Some(NotApplicable)), versionBytes := Some(bytes));
    r := NO_RECORDS;
  }

  predicate CodecOfForm(form: string, codec: string) {
    (form, codec) in {("pgs", "hdmv_pgs_subtitle"), ("vobsub", "dvd_subtitle"), ("dvb", "dvb_subtitle"),
                      ("xsub", "xsub")}
  }

  lemma SmallLetters(form: string, codec: string)
    requires CodecOfForm(form, codec)
    ensures Text.Trimmed(codec) && forall i :: 0 <= i < |codec| ==> !('A' <= codec[i] <= 'Z')
  {
  }

  lemma WordOfCodec(s: Stream, codec: string)
    requires s.codec == Some(codec) && Text.Trimmed(codec)
    requires forall i :: 0 <= i < |codec| ==> !('A' <= codec[i] <= 'Z')
    ensures Word(s.codec.GetOr("")) == codec
  {
    WordStays(codec);
  }

  lemma FormOfWord(s: Stream, form: string)
    requires CodecOfForm(form, Word(s.codec.GetOr(""))) && s.form.None?
    ensures ImageForm(s) == Some(form)
  {
    FormsAre(s, Subtitle(None, "", None));
  }

  lemma FormHasCodec(s: Stream, form: string, codec: string)
    requires CodecOfForm(form, codec) && s.codec == Some(codec) && s.form.None?
    ensures ImageForm(s) == Some(form)
  {
    SmallLetters(form, codec);
    WordOfCodec(s, codec);
    FormOfWord(s, form);
  }

  lemma IsMatroska(src: SourceRecord, format: string)
    requires src.format == Some(format) && format == "matroska"
    ensures Matroska(src)
  {
    WordStays(format);
    assert format <= format[0..];
  }

  lemma MissesOne(src: SourceRecord, pkg: PackageRecord, carried: set<string>, s: Stream)
    requires src.streams == [s] && Wanted(src, s, carried) && pkg.subtitles == []
    ensures Missing(src, pkg, carried) != {}
  {
    assert Lacks(src, pkg, carried, src.streams[0]);
    assert Tag(ImageForm(s).GetOr(""), TagOf(s)) in Missing(src, pkg, carried);
  }

  /** An original with an image subtitle, whose package has none. */
  lemma ImagesFound(rs: RulesState) returns (r: Records)
    requires !OffOf(rs).images && Sensible(rs)
    ensures FindsImages(r, rs)
  {
    var carried := rs.packager.value.Carried();
    var form :| form in carried && form in {"pgs", "vobsub", "dvb", "xsub"};
    var codec := if form == "pgs" then "hdmv_pgs_subtitle" else if form == "vobsub" then "dvd_subtitle"
    else if form == "dvb" then "dvb_subtitle" else "xsub";
    var s := Stream("subtitle", Some(codec), false, None, None, None, None, None, "", None);
    var src := SourceRecord(None, Some("matroska"), [s], []);
    var pkg := PackageRecord(None, None, [], [], []);
    FormHasCodec(s, form, codec);
    IsMatroska(src, src.format.value);
    MissesOne(src, pkg, carried, s);
    r := NO_RECORDS.(src := Some(src), pkg := Some(pkg));
  }

  lemma OtherCodec(t: Title)
    requires t.pkgCodec == Some("x")
    ensures CodecOf(t, NO_RECORDS) == "x" && !IsHevc("x")
  {
    Text.TrimSpaceFixpoint("x");
    CodecsApart("x");
    assert |NameOf("x")| == 1;
  }

  /** Coverage is exact: of sensible limits, a rule that is not off is broken by some title. */
  lemma OnIsFound(rule: Rule, rs: RulesState) returns (t: Title, r: Records)
    requires !OffOf(rs).Has(rule) && rs.v2 && Sensible(rs)
    ensures Finds(rule, t, r, rs)
  {
    t, r := PLAIN, NO_RECORDS;
    match rule {
      case NotPackaged => t := t.(pkgCodec := None);
      case PackagingFailed => t := t.(pkgCodec := None, discImage := true);
      case OverBitrateCap => t, r := RateFound(rs);
      case OverSizeCap => t, r := SizeFound(rs);
      case NoSurround => r := r.(srcEssence := Some(Essence(true, None)), pkgEssence := Some(Essence(false, None)));
      case ImageSubtitlesMissing => r := ImagesFound(rs);
      case VideoNotHevc =>
        t := t.(pkgCodec := Some("x"));
        OtherCodec(t);
    }
    if t.Packaged() {
      FindsIs(rule, t, r, rs);
    }
  }

  /** A packager whose forms are none the check knows has its rule on, and no title ever breaks it. */
  lemma UnknownFormsNeverFound(r: Records, rs: RulesState)
    requires rs.packager.Some? && rs.packager.value.Carried() !! {"pgs", "vobsub", "dvb", "xsub"}
    ensures !FindsImages(r, rs)
  {
    if r.src.Some? && r.pkg.Some? {
      var src, carried := r.src.value, rs.packager.value.Carried();
      forall i | 0 <= i < |src.streams| ensures !Wanted(src, src.streams[i], carried) {
        FormsAre(src.streams[i], Subtitle(None, "", None));
      }
      MissesNothing(src, r.pkg.value, carried);
    }
  }

  // ---- what the hash of the rules covers

  /** Both say, or neither does, which image subtitles they keep. */
  predicate SameReport(a: RulesState, b: RulesState) {
    a.packager.Some? && b.packager.Some? ==>
      a.packager.value.imageSubtitles.Some? == b.packager.value.imageSubtitles.Some?
  }

  lemma SameCarried(p: PackagerRules, q: PackagerRules)
    requires multiset(p.imageSubtitles.GetOr([])) == multiset(q.imageSubtitles.GetOr([]))
    ensures p.Carried() == q.Carried()
    ensures p.imageSubtitles.GetOr([]) == [] <==> q.imageSubtitles.GetOr([]) == []
  {
    var a, b := p.imageSubtitles.GetOr([]), q.imageSubtitles.GetOr([]);
    assert forall f :: f in a <==> f in multiset(a);
    assert forall f :: f in b <==> f in multiset(b);
    assert |multiset(a)| == |a| && |multiset(b)| == |b|;
    assert p.Carried() == (set f | f in a :: Word(f));
    assert q.Carried() == (set f | f in b :: Word(f));
  }

  /** Rules of one hash transcode alike, and plan the same companions of every original. */
  lemma SameHash(a: RulesState, b: RulesState, tracks: seq<Audio.Track>)
    requires HashOf(a) == HashOf(b)
    ensures a.v2 == b.v2 && a.transcoder.Some? == b.transcoder.Some? && a.packager.Some? == b.packager.Some?
    ensures a.transcoder.Some? ==> a.transcoder.value.(other := "") == b.transcoder.value.(other := "")
    ensures a.packager.Some? ==>
              var p, q := a.packager.value, b.packager.value;
              p.SurroundOn() == q.SurroundOn() && p.surroundAudio == q.surroundAudio && p.Tracks() == q.Tracks() &&
              p.Carried() == q.Carried() && (p.imageSubtitles.GetOr([]) == [] <==> q.imageSubtitles.GetOr([]) == []) &&
              Audio.Companions(tracks, p.Tracks(), a.languages, p.PreferredOf(a.languages)) ==
              Audio.Companions(tracks, q.Tracks(), b.languages, q.PreferredOf(b.languages))
  {
    if a.packager.Some? {
      var p, q := a.packager.value, b.packager.value;
      SameCarried(p, q);
      if !p.Tracks().Shown? {
        var shown, shown2 := Audio.ShownOf(tracks, a.languages), Audio.ShownOf(tracks, b.languages);
        Audio.EveryIgnores(tracks, p.Tracks(), shown, Audio.DefaultOf(tracks, shown, p.PreferredOf(a.languages)),
                           shown2, Audio.DefaultOf(tracks, shown2, q.PreferredOf(b.languages)), |tracks|);
      }
    }
  }

  /** What the check finds of a title, what it leaves and what blocks it are of the rules' hash: under rules of one
      hash it is the same, of every packaged title exactly when both or neither say which image subtitles the packager
      keeps. */
  lemma HashCoversResult(t: Title, r: Records, a: RulesState, b: RulesState)
    requires HashOf(a) == HashOf(b)
    ensures !t.Packaged() ==> ResultOf(t, r, a) == ResultOf(t, r, b)
    ensures t.Packaged() ==> (ResultOf(t, r, a) == ResultOf(t, r, b) <==> SameReport(a, b))
  {
    SameHash(a, b, []);
    SameTranscoder(t, r, a, b);
    SameMarks(t, r, a, b);
    if t.Packaged() && !SameReport(a, b) {
      OtherImages(LeftOf(t, r, a), LeftOf(t, r, b));
    }
  }

  lemma OtherImages(a: Marks, b: Marks)
    requires a.images != b.images
    ensures a.Rules() != b.Rules()
  {
    assert a.Has(ImageSubtitlesMissing) != b.Has(ImageSubtitlesMissing);
    assert (ImageSubtitlesMissing in a.Rules()) != (ImageSubtitlesMissing in b.Rules());
  }

  lemma SameMarks(t: Title, r: Records, a: RulesState, b: RulesState)
    requires HashOf(a) == HashOf(b)
    ensures SameReport(a, b) ==> FoundOf(t, r, a) == FoundOf(t, r, b) && LeftOf(t, r, a) == LeftOf(t, r, b)
    ensures !SameReport(a, b) ==> LeftOf(t, r, a).images != LeftOf(t, r, b).images
  {
    SameHash(a, b, []);
    SameRate(t, r, a, b);
    SameTranscoder(t, r, a, b);
    SamePackager(r, a, b);
  }

  predicate SameAside(a: RulesState, b: RulesState) {
    a.transcoder.Some? == b.transcoder.Some? &&
    (a.transcoder.Some? ==> a.transcoder.value.(other := "") == b.transcoder.value.(other := ""))
  }

  lemma SameMeasures(t: Title, r: Records, a: RulesState, b: RulesState)
    requires SameAside(a, b)
    ensures BucketOf(t, r, a) == BucketOf(t, r, b)
    ensures a.transcoder.Some? ==> KeptCopy(t, r, a.transcoder.value) == KeptCopy(t, r, b.transcoder.value)
  {
  }

  lemma SameRate(t: Title, r: Records, a: RulesState, b: RulesState)
    requires SameAside(a, b)
    ensures FindsRate(t, r, a) == FindsRate(t, r, b) && LeavesRate(t, r, a) == LeavesRate(t, r, b)
  {
    SameMeasures(t, r, a, b);
    if a.transcoder.Some? && BucketOf(t, r, a).Some? {
      var bucket := BucketOf(t, r, a).value;
      assert a.transcoder.value.CapOf(t.kind, bucket) == b.transcoder.value.CapOf(t.kind, bucket);
      assert a.transcoder.value.LimitOf(t.kind, bucket) == b.transcoder.value.LimitOf(t.kind, bucket);
    }
  }

  lemma SameTranscoder(t: Title, r: Records, a: RulesState, b: RulesState)
    requires SameAside(a, b)
    ensures FindsSize(t, r, a) == FindsSize(t, r, b) && LeavesSize(t, r, a) == LeavesSize(t, r, b)
    ensures FindsCodec(t, r, a) == FindsCodec(t, r, b) && LeavesCodec(t, r, a) == LeavesCodec(t, r, b)
    ensures BlockedOf(t, r, a.transcoder) == BlockedOf(t, r, b.transcoder)
  {
    SameMeasures(t, r, a, b);
  }

  lemma SamePackager(r: Records, a: RulesState, b: RulesState)
    requires HashOf(a) == HashOf(b)
    ensures FindsSurround(r, a) == FindsSurround(r, b) && LeavesSurround(r, a) == LeavesSurround(r, b)
    ensures SameReport(a, b) ==> FindsImages(r, a) == FindsImages(r, b) && LeavesImages(r, a) == LeavesImages(r, b)
    ensures !SameReport(a, b) ==> LeavesImages(r, a) != LeavesImages(r, b)
  {
    SameHash(a, b, if r.src.Some? then r.src.value.tracks else []);
  }
}
