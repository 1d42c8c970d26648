/**
 The rules the workers report they run with (internal/compliance/rules.go, plan.go), what the check reads of them, and
 the hash a title is checked under.
 */
module Rules {
  import opened Wrappers
  import Text
  import Audio

  function Lower(s: string): string {
    if s == [] then [] else [if 'A' <= s[0] <= 'Z' then (s[0] as int + 32) as char else s[0]] + Lower(s[1..])
  }

  /** A word as the check compares words: without the spaces around it, in lower case. */
  function Word(s: string): string {
    Lower(Text.TrimSpace(s))
  }

  /** Only the letters A to Z change, each to its small one. */
  lemma {:induction false} LowerAt(s: string, i: nat)
    requires i < |s|
    ensures |Lower(s)| == |s|
    ensures Lower(s)[i] == if 'A' <= s[i] <= 'Z' then (s[i] as int + 32) as char else s[i]
  {
    if |s| > 1 {
      LowerAt(s[1..], if i == 0 then 0 else i - 1);
    }
  }

  /** A text of small letters with no white space around it is a word as it is. */
  lemma {:induction false} WordStays(s: string)
    requires Text.Trimmed(s) && forall i :: 0 <= i < |s| ==> !('A' <= s[i] <= 'Z')
    ensures Word(s) == s && Lower(s) == s
  {
    Text.TrimSpaceFixpoint(s);
    forall i | 0 <= i < |s| ensures |Lower(s)| == |s| && Lower(s)[i] == s[i] {
      LowerAt(s, i);
    }
    if s != [] {
      LowerAt(s, 0);
    }
  }

  /** The transcoder's caps, Mbit/s of the video by kind and bucket, and GiB of a movie's file; none where not
      reported. */
  datatype Caps = Caps(movie1080: Option<real>, movie2160: Option<real>, movieMaxGiB: Option<real>,
                       episode1080: Option<real>, episode2160: Option<real>)

  /** A rung of the ladder: its name, its codec, whether the ladder names it. */
  datatype Rung = Rung(name: string, codec: string, codecNamed: bool)

  /** What the check reads of the transcoder's report. The ladder's spec is its rungs, each its words: [[""]] the empty
      one; rungs are those the report gives in parts. other is what else it reports. */
  datatype TranscoderRules = TranscoderRules(
    caps: Caps, minHeight: Option<real>, minWidth: Option<real>, codec: Option<string>, maxrate1080: Option<real>,
    maxrate2160: Option<real>, ladder: Option<seq<seq<string>>>, rungs: seq<Rung>, dolbyVision: map<string, string>,
    other: string)
  {
    /** The cap of a title of a kind in a bucket; none where it is not reported. */
    function CapOf(kind: string, bucket: int): Option<real> {
      if kind == "episode" && bucket == 2160 then caps.episode2160
      else if kind == "episode" then caps.episode1080
      else if bucket == 2160 then caps.movie2160
      else caps.movie1080
    }

    function MaxrateOf(kind: string, bucket: int): Option<real> {
      var o := if bucket == 2160 then maxrate2160 else maxrate1080;
      if o.Some? && o.value > 0.0 then o
      else if CapOf(kind, bucket).Some? && CapOf(kind, bucket).value > 0.0 then CapOf(kind, bucket) else None
    }

    /** The bit rate a package's video may run at while its cap holds. */
    function LimitOf(kind: string, bucket: int): Option<real> {
      var c := CapOf(kind, bucket);
      if c.None? || c.value <= 0.0 then None else MaxrateOf(kind, bucket)
    }

    predicate AllowsAnyRate() {
      forall c :: c in [caps.movie1080, caps.movie2160, caps.episode1080, caps.episode2160] ==>
                    c.Some? && c.value <= 0.0
    }

    predicate EncoderIsCPU() {
      codec.Some? && Word(codec.value) == "libx265"
    }

    /** The rungs: those its report gives in parts, else its spec's. */
    function LadderRungs(): Option<seq<Rung>> {
      if rungs != [] then Some(rungs)
      else if ladder.None? then None
      else
        var out := RungsOf(ladder.value);
        if out.Some? && out.value == [] then Some([Rung("source", "hevc", false)]) else out
    }

    /** An H.264 original that plays in browsers passes through: the full-size rung is H.264, or HEVC by default on a
        CPU. */
    predicate CopiesH264() {
      LadderRungs().Some? && SourceIn(LadderRungs().value).Some? &&
      var g := SourceIn(LadderRungs().value).value;
      g.codec == "h264" || (g.codec == "hevc" && !g.codecNamed && EncoderIsCPU())
    }

    /** Its rules make a package's video HEVC whatever its source. */
    predicate HevcRequired() {
      ladder.Some? &&
      var tokens := if ladder.value == [[""]] then [["source"]] else ladder.value;
      HevcOf(tokens).Some? && HevcOf(tokens).value.codec == "hevc" &&
      (HevcOf(tokens).value.codecNamed || (codec.Some? && !EncoderIsCPU()))
    }
  }

  /** The limit of a title is its kind's and bucket's cap, or the maxrate of the bucket where there is a cap; none where
      the cap is 0 or not reported. */
  lemma LimitIs(tr: TranscoderRules, kind: string, tall: bool)
    ensures var cap := if kind == "episode" && tall then tr.caps.episode2160
                       else if kind == "episode" then tr.caps.episode1080
                       else if tall then tr.caps.movie2160 else tr.caps.movie1080;
            var maxrate := if tall then tr.maxrate2160 else tr.maxrate1080;
            var bucket := if tall then 2160 else 1080;
            tr.CapOf(kind, bucket) == cap &&
            match tr.LimitOf(kind, bucket)
            case None => cap.None? || cap.value <= 0.0
            case Some(x) => x > 0.0 && cap.Some? && cap.value > 0.0 &&
                            x == (if maxrate.GetOr(0.0) > 0.0 then maxrate.value else cap.value)
  {
  }

  /** The codec a rung's words name, the last of them, else the one it has. */
  function Named(g: Rung, words: seq<string>): Rung
    decreases |words|
  {
    if words == [] then g
    else Named(if words[0] == "hevc" || words[0] == "h264" then g.(codec := words[0], codecNamed := true)
               else g, words[1..])
  }

  predicate CodecWord(w: string) {
    w == "hevc" || w == "h264"
  }

  /** A rung is of the last codec its words name; of the one it has where they name none. */
  lemma {:induction false} NamedIsLast(g: Rung, words: seq<string>, k: int)
    requires -1 <= k < |words| && (k >= 0 ==> CodecWord(words[k]))
    requires forall j :: k < j < |words| ==> !CodecWord(words[j])
    ensures Named(g, words) == if k < 0 then g else g.(codec := words[k], codecNamed := true)
    decreases |words|
  {
    if words != [] {
      var next := if CodecWord(words[0]) then g.(codec := words[0], codecNamed := true) else g;
      assert forall j :: 0 <= j < |words[1..]| ==> words[1..][j] == words[j + 1];
      NamedIsLast(next, words[1..], if k < 0 then k else k - 1);
    }
  }

  /** The rungs a spec reads as (parse_ladder): a blank token is passed over; none where a token is none of the
      planner's grammar. */
  function RungsOf(tokens: seq<seq<string>>): Option<seq<Rung>> {
    if tokens == [] then Some([])
    else
      var rest := RungsOf(tokens[1..]);
      if tokens[0] == [""] then rest
      else if tokens[0] == [] || !RungName(tokens[0][0]) || !forall w :: w in tokens[0][1..] ==> RungWord(w) then None
      else if rest.None? then None
      else
        var name := tokens[0][0];
        Some([Named(Rung(name, if name == "source" then "hevc" else "h264", false), tokens[0][1..])] + rest.value)
  }

  predicate Digits(s: string) {
    forall c :: c in s ==> '0' <= c <= '9'
  }

  predicate RungName(s: string) {
    s == "source" || (4 <= |s| <= 5 && s[|s| - 1] == 'p' && Digits(s[..|s| - 1]))
  }

  /** A word after a rung's name: a codec, or a maxrate (3M, 1500k, 1.5M). */
  predicate RungWord(s: string) {
    s == "hevc" || s == "h264" ||
    (|s| >= 2 && s[|s| - 1] in "km" && exists i :: 0 < i <= |s| - 1 && Digits(s[..i]) && Fraction(s[i..|s| - 1]))
  }

  predicate Fraction(s: string) {
    s == "" || (|s| >= 2 && s[0] == '.' && Digits(s[1..]))
  }

  /** The first rung at the original's size. */
  function SourceIn(rungs: seq<Rung>): Option<Rung> {
    if rungs == [] then None else if rungs[0].name == "source" then Some(rungs[0]) else SourceIn(rungs[1..])
  }

  /** The first token at the original's size, with the codec its words name. */
  function HevcOf(tokens: seq<seq<string>>): Option<Rung> {
    if tokens == [] then None
    else if tokens[0] != [] && tokens[0][0] == "source" then Some(Named(Rung("source", "hevc", false), tokens[0][1..]))
    else HevcOf(tokens[1..])
  }

  predicate NamesSource(token: seq<string>) {
    token != [] && token[0] == "source"
  }

  /** The rung at the original's size is the first token's that names it. */
  lemma {:induction false} HevcOfFirst(tokens: seq<seq<string>>, i: nat)
    requires i <= |tokens| && (i < |tokens| ==> NamesSource(tokens[i]))
    requires forall j :: 0 <= j < i ==> !NamesSource(tokens[j])
    ensures HevcOf(tokens) ==
            if i < |tokens| then Some(Named(Rung("source", "hevc", false), tokens[i][1..])) else None
  {
    if i > 0 {
      HevcOfFirst(tokens[1..], i - 1);
    }
  }

  lemma {:induction false} SourceInFirst(rungs: seq<Rung>, i: nat)
    requires i <= |rungs| && (i < |rungs| ==> rungs[i].name == "source")
    requires forall j :: 0 <= j < i ==> rungs[j].name != "source"
    ensures SourceIn(rungs) == if i < |rungs| then Some(rungs[i]) else None
  {
    if i > 0 {
      SourceInFirst(rungs[1..], i - 1);
    }
  }

  /** Of a ladder's spec whose i-th token is the first at the original's size, the k-th word of it the last that names a
      codec (-1: none does): every video is HEVC exactly where that word is HEVC, or none is and the encoder is no CPU
      one; without such a token it is not. */
  lemma HevcRequiredIs(t: TranscoderRules, i: nat, k: int)
    requires t.ladder.Some? && t.ladder.value != [[""]]
    requires var tokens := t.ladder.value;
             i <= |tokens| && (forall j :: 0 <= j < i ==> !NamesSource(tokens[j])) &&
             (i < |tokens| ==>
                NamesSource(tokens[i]) && (k == -1 || (0 < k < |tokens[i]| && CodecWord(tokens[i][k]))) &&
                forall j :: 0 < j < |tokens[i]| && k < j ==> !CodecWord(tokens[i][j]))
    ensures t.HevcRequired() <==>
            i < |t.ladder.value| &&
            if k < 0 then t.codec.Some? && Word(t.codec.value) != "libx265" else t.ladder.value[i][k] == "hevc"
  {
    var tokens := t.ladder.value;
    HevcOfFirst(tokens, i);
    if i < |tokens| {
      var words := tokens[i][1..];
      assert forall j :: 0 <= j < |words| ==> words[j] == tokens[i][j + 1];
      NamedIsLast(Rung("source", "hevc", false), words, if k < 0 then -1 else k - 1);
    }
  }

  /** An empty spec is one rung at the original's size, of no codec named. */
  lemma EmptySpec(t: TranscoderRules)
    requires t.ladder == Some([[""]])
    ensures t.HevcRequired() <==> t.codec.Some? && Word(t.codec.value) != "libx265"
  {
    HevcOfFirst([["source"]], 0);
    assert [["source"]][0][1..] == [];
  }

  /** Of rungs reported in parts, the i-th the first at the original's size: H.264 is kept as it is where that rung is
      H.264, or HEVC by default on the CPU's encoder; without such a rung it is not. */
  lemma CopiesH264Is(t: TranscoderRules, i: nat)
    requires t.rungs != [] && i <= |t.rungs| && (i < |t.rungs| ==> t.rungs[i].name == "source")
    requires forall j :: 0 <= j < i ==> t.rungs[j].name != "source"
    ensures t.CopiesH264() <==>
            i < |t.rungs| &&
            (t.rungs[i].codec == "h264" ||
             (t.rungs[i].codec == "hevc" && !t.rungs[i].codecNamed && t.codec.Some? &&
              Word(t.codec.value) == "libx265"))
  {
    SourceInFirst(t.rungs, i);
  }

  lemma {:induction false} SameSource(tokens: seq<seq<string>>)
    requires RungsOf(tokens).Some?
    ensures SourceIn(RungsOf(tokens).value).Some? ==> HevcOf(tokens).Some?
    ensures HevcOf(tokens).Some? ==> SourceIn(RungsOf(tokens).value) == HevcOf(tokens)
    ensures RungsOf(tokens).value == [] ==> HevcOf(tokens).None?
  {
    if tokens != [] {
      SameSource(tokens[1..]);
      if tokens[0] != [""] {
        NamedName(Rung(tokens[0][0], if tokens[0][0] == "source" then "hevc" else "h264", false), tokens[0][1..]);
      }
    }
  }

  lemma {:induction false} NamedName(g: Rung, words: seq<string>)
    ensures Named(g, words).name == g.name
    ensures g.codec in {"hevc", "h264"} ==> Named(g, words).codec in {"hevc", "h264"}
    decreases |words|
  {
    if words != [] {
      NamedName(if words[0] == "hevc" || words[0] == "h264" then g.(codec := words[0], codecNamed := true)
                else g, words[1..]);
    }
  }

  /** The rung at the original's size that a ladder's spec names. */
  function SpecSource(t: TranscoderRules): Option<Rung> {
    if t.ladder.None? then None else HevcOf(if t.ladder.value == [[""]] then [["source"]] else t.ladder.value)
  }

  /** The rungs reported in parts, where they are, name the codec at the original's size as the spec does. */
  predicate PartsAgree(t: TranscoderRules) {
    t.rungs != [] && SourceIn(t.rungs).Some? && SpecSource(t).Some? ==>
      SourceIn(t.rungs).value.codec == SpecSource(t).value.codec &&
      SourceIn(t.rungs).value.codecNamed == SpecSource(t).value.codecNamed
  }

  lemma SpecIsRead(t: TranscoderRules)
    requires t.rungs == [] && t.LadderRungs().Some? && SourceIn(t.LadderRungs().value).Some?
    ensures SpecSource(t) in {None, SourceIn(t.LadderRungs().value)}
  {
    var tokens := t.ladder.value;
    SameSource(tokens);
    if tokens == [[""]] {
      assert RungsOf(tokens[1..]) == Some([]);
      assert HevcOf([["source"]]) == Some(Named(Rung("source", "hevc", false), []));
    }
  }

  /** A transcoder whose ladder keeps H.264 as it is makes every video HEVC exactly when its spec, read apart from the
      rungs in parts, names HEVC at the original's size, or leaves it HEVC on an encoder that is no CPU one while the
      parts say H.264: never when the parts and the spec agree. */
  lemma CopyingRequiresNoHevc(t: TranscoderRules)
    requires t.CopiesH264()
    ensures t.HevcRequired() <==>
            SpecSource(t).Some? && SpecSource(t).value.codec == "hevc" &&
            (SpecSource(t).value.codecNamed ||
             (SourceIn(t.LadderRungs().value).value.codec == "h264" && t.codec.Some? && !t.EncoderIsCPU()))
    ensures PartsAgree(t) ==> !t.HevcRequired()
  {
    if t.rungs == [] {
      SpecIsRead(t);
    }
  }

  /** A report whose parts and spec disagree: it keeps H.264 as it is and makes every video HEVC. */
  lemma PartsDisagree() returns (t: TranscoderRules)
    ensures t.CopiesH264() && t.HevcRequired() && t.rungs != []
  {
    t := TranscoderRules(Caps(None, None, None, None, None), None, None, None, None, None, Some([["source", "hevc"]]),
                         [Rung("source", "h264", true)], map[], "");
    assert ["source", "hevc"][1..] == ["hevc"] && ["hevc"][1..] == [];
    assert Named(Rung("source", "hevc", false), ["hevc"]) == Named(Rung("source", "hevc", true), []);
  }

  /** What the check reads of the packager's report. The words of its surround companion (SurroundOn: it makes one),
      which tracks get one, the languages it prefers, by key, and the forms of image subtitles it keeps. */
  datatype PackagerRules = PackagerRules(
    surroundAudio: Option<string>, surroundLayout: Option<string>, surroundBitrate: Option<string>,
    stereoBitrate: Option<string>, imageSubtitles: Option<seq<string>>, surroundTracks: Option<string>,
    preferredLanguages: seq<string>)
  {
    predicate SurroundOn() {
      surroundAudio.Some? && Word(surroundAudio.value) != "" && Word(surroundAudio.value) != "off"
    }

    function Tracks(): Audio.Which {
      if surroundTracks.None? || Word(surroundTracks.value) == "" then Audio.Every
      else if Word(surroundTracks.value) == "shown" then Audio.Shown else Audio.Unknown
    }

    function PreferredOf(l: Audio.Languages): seq<string> {
      if preferredLanguages != [] then preferredLanguages else l.whitelist
    }

    /** The forms it carries, as words. */
    function Carried(): set<string> {
      if imageSubtitles.None? then {} else set f | f in imageSubtitles.value :: Word(f)
    }
  }

  /** What the check holds the titles against: each worker's rules (none: it never reported), the library's layout,
      whether failed steps are tried again, and the language settings. */
  datatype RulesState = RulesState(transcoder: Option<TranscoderRules>, packager: Option<PackagerRules>, v2: bool,
                                   retries: bool, languages: Audio.Languages)

  // ---- the hash

  /** What a transcoder's hash covers. */
  datatype CoveredTranscoder = CoveredTranscoder(caps: Caps, minHeight: Option<real>, minWidth: Option<real>,
                                                 codec: Option<string>, maxrate1080: Option<real>,
                                                 maxrate2160: Option<real>, ladder: Option<seq<seq<string>>>,
                                                 dolbyVision: map<string, string>, rungs: seq<Rung>)

  /** What a packager's hash covers: the forms of image subtitles in no order, and as none where it lists none. */
  datatype CoveredPackager = CoveredPackager(surroundAudio: Option<string>, surroundLayout: Option<string>,
                                             surroundBitrate: Option<string>, stereoBitrate: Option<string>,
                                             imageSubtitles: multiset<string>, surroundTracks: Option<string>,
                                             preferredLanguages: seq<string>)

  /** What the hash of the rules covers; a hash stands for it, no two the same. */
  datatype Hash = Hash(version: string, v2: bool, retries: bool, transcoder: Option<CoveredTranscoder>,
                       packager: Option<CoveredPackager>, languages: Option<Audio.Languages>)

  const VERSION := "compliance/10"

  function HashOf(rs: RulesState): Hash {
    Hash(VERSION, rs.v2, rs.retries,
         match rs.transcoder
         case None => None
         case Some(t) =>
           Some(CoveredTranscoder(t.caps, t.minHeight, t.minWidth, t.codec, t.maxrate1080, t.maxrate2160, t.ladder,
                                  t.dolbyVision, t.rungs)),
         match rs.packager
         case None => None
         case Some(p) =>
           Some(CoveredPackager(p.surroundAudio, p.surroundLayout, p.surroundBitrate, p.stereoBitrate,
                                multiset(p.imageSubtitles.GetOr([])), p.surroundTracks, p.preferredLanguages)),
         if rs.packager.Some? && rs.packager.value.Tracks() == Audio.Shown then Some(rs.languages) else None)
  }

  /** Rules have one hash exactly when they are the same in all but what else a transcoder reports, the order of the
      forms of image subtitles (none listed as none at all), and the languages, which count only where the packager
      makes companions of the tracks shown. */
  lemma HashIs(a: RulesState, b: RulesState)
    ensures HashOf(a) == HashOf(b) <==>
            a.v2 == b.v2 && a.retries == b.retries && SameTranscoders(a.transcoder, b.transcoder) &&
            SamePackagers(a.packager, b.packager) &&
            (a.packager.Some? && a.packager.value.Tracks().Shown? ==> a.languages == b.languages)
  {
  }

  predicate SameTranscoders(a: Option<TranscoderRules>, b: Option<TranscoderRules>) {
    match (a, b)
    case (None, None) => true
    case (Some(t), Some(u)) => u == t.(other := u.other)
    case _ => false
  }

  predicate SamePackagers(a: Option<PackagerRules>, b: Option<PackagerRules>) {
    match (a, b)
    case (None, None) => true
    case (Some(p), Some(q)) =>
      q == p.(imageSubtitles := q.imageSubtitles) &&
      multiset(p.imageSubtitles.GetOr([])) == multiset(q.imageSubtitles.GetOr([]))
    case _ => false
  }
}
