/**
 The packager's rules of a title's audio tracks (internal/compliance/audio.go): which tracks a client is offered, which
 is the default one, and which get a 5.1 companion.
 */
module Audio {
  import opened Wrappers
  import opened Sets

  /** What an audio track is for: the film as it plays, a commentary, an audio description. */
  datatype Purpose = Main | Commentary | Description

  /** An audio track as the packager reads it: its channels, the key of its language, its dispositions, and what the
      words of its title say (a commentary, an audio description, a comment as the check took it before). */
  datatype Track = Track(channels: real, key: string, flagged: bool, comment: bool, impaired: bool, description: bool,
                         saysCommentary: bool, saysDescription: bool, saysComment: bool)
  {
    function Purpose(): Purpose {
      if comment then Commentary
      else if impaired || description then Description
      else if saysCommentary then Commentary
      else if saysDescription then Description
      else Main
    }

    predicate ForTheFilm() {
      Purpose() == Main
    }

    predicate OldCommentary() {
      comment || saysComment
    }
  }

  /** The language settings: the keys of the languages listed, none shows every track, and whether a title of a single
      hidden language shows it all. */
  datatype Languages = Languages(whitelist: seq<string>, keepOriginal: bool)

  /** Which tracks get a companion, as the packager reports it: every one, those shown, or words the check doesn't
      know. */
  datatype Which = Every | Shown | Unknown

  predicate NoLanguage(key: string) {
    key == "und" || key == "zxx"
  }

  /** A track is for the film exactly when nothing marks it otherwise. */
  lemma ForTheFilmIs(t: Track)
    ensures t.ForTheFilm() <==>
            !t.comment && !t.impaired && !t.description && !t.saysCommentary && !t.saysDescription
  {
  }

  // ---- the tracks shown

  predicate Listed(t: Track, l: Languages) {
    NoLanguage(t.key) || t.key in l.whitelist
  }

  /** The languages the tracks name. */
  function NamedLanguages(tracks: seq<Track>): set<string> {
    set i | 0 <= i < |tracks| && !NoLanguage(tracks[i].key) :: tracks[i].key
  }

  predicate AllShown(tracks: seq<Track>, l: Languages) {
    l.whitelist == [] ||
    ((forall i :: 0 <= i < |tracks| ==> !Listed(tracks[i], l)) && l.keepOriginal && |NamedLanguages(tracks)| == 1)
  }

  function ShownOf(tracks: seq<Track>, l: Languages): (shown: seq<bool>)
    ensures |shown| == |tracks|
  {
    seq(|tracks|, i requires 0 <= i < |tracks| => AllShown(tracks, l) || Listed(tracks[i], l))
  }

  method ShownTracks(tracks: seq<Track>, l: Languages) returns (shown: seq<bool>)
    ensures shown == ShownOf(tracks, l)
  {
    shown := seq(|tracks|, i => false);
    if l.whitelist == [] {
      for i := 0 to |tracks|
        invariant |shown| == |tracks| && forall k :: 0 <= k < i ==> shown[k]
      {
        shown := shown[i := true];
      }
      return;
    }
    var some := false;
    for i := 0 to |tracks|
      invariant |shown| == |tracks|
      invariant forall k :: 0 <= k < |tracks| ==> shown[k] == (k < i && Listed(tracks[k], l))
      invariant some <==> exists k :: 0 <= k < i && Listed(tracks[k], l)
    {
      if NoLanguage(tracks[i].key) || tracks[i].key in l.whitelist {
        shown, some := shown[i := true], true;
      }
    }
    if some || !l.keepOriginal {
      return;
    }
    var distinct: set<string> := {};
    for i := 0 to |tracks|
      invariant distinct == NamedLanguages(tracks[..i])
    {
      assert tracks[..i + 1] == tracks[..i] + [tracks[i]];
      assert NamedLanguages(tracks[..i + 1]) ==
             NamedLanguages(tracks[..i]) + if NoLanguage(tracks[i].key) then {} else {tracks[i].key} by {
        forall k | 0 <= k < i ensures tracks[..i + 1][k] == tracks[..i][k] {}
        assert tracks[..i + 1][i] == tracks[i];
      }
      if !NoLanguage(tracks[i].key) {
        distinct := distinct + {tracks[i].key};
      }
    }
    assert tracks[..|tracks|] == tracks;
    if |distinct| == 1 {
      shown := seq(|tracks|, i => true);
    }
  }

  /** Without a list every track is shown. Beside a listed language, or one unknown, no unlisted one is; where all are
      unlisted, a title is shown whole exactly when it is of one language and such titles are, else not at all. */
  lemma ShownIs(tracks: seq<Track>, l: Languages, j: nat)
    requires j < |tracks|
    ensures var shown := ShownOf(tracks, l)[j];
            if l.whitelist == [] then shown
            else if exists i :: 0 <= i < |tracks| && tracks[i].key in ["und", "zxx"] + l.whitelist then
              shown <==> tracks[j].key in ["und", "zxx"] + l.whitelist
            else shown <==> l.keepOriginal && forall i :: 0 <= i < |tracks| ==> tracks[i].key == tracks[j].key
  {
    var named, key := NamedLanguages(tracks), tracks[j].key;
    forall i | 0 <= i < |tracks| ensures tracks[i].key in ["und", "zxx"] + l.whitelist <==> Listed(tracks[i], l) {}
    if forall i :: 0 <= i < |tracks| ==> !Listed(tracks[i], l) {
      assert key in named;
      forall i | 0 <= i < |tracks| ensures tracks[i].key in named {}
      if forall i :: 0 <= i < |tracks| ==> tracks[i].key == key {
        assert named == {key};
      } else {
        var i :| 0 <= i < |tracks| && tracks[i].key != key;
        SmallerSet({key, tracks[i].key}, named);
      }
    }
  }

  // ---- the default track

  /** The rank of the default track: shown before hidden, for the film before not, flagged before not, then in order. */
  predicate Before(tracks: seq<Track>, shown: seq<bool>, i: nat, j: nat)
    requires |shown| == |tracks| && i < |tracks| && j < |tracks|
  {
    if shown[i] != shown[j] then shown[i]
    else if tracks[i].ForTheFilm() != tracks[j].ForTheFilm() then tracks[i].ForTheFilm()
    else if tracks[i].flagged != tracks[j].flagged then tracks[i].flagged
    else i < j
  }

  predicate OfKey(t: Track, key: Option<string>) {
    key.None? || t.key == key.value
  }

  /** The first by rank among the first n tracks of a key (of any, for none); -1 where there is none. */
  function Best(tracks: seq<Track>, shown: seq<bool>, key: Option<string>, n: nat): (b: int)
    requires |shown| == |tracks| && n <= |tracks|
    ensures -1 <= b < n
  {
    if n == 0 then -1
    else
      var b := Best(tracks, shown, key, n - 1);
      if OfKey(tracks[n - 1], key) && (b < 0 || Before(tracks, shown, n - 1, b)) then n - 1 else b
  }

  lemma {:induction false} BestIsFirst(tracks: seq<Track>, shown: seq<bool>, key: Option<string>, n: nat)
    requires |shown| == |tracks| && n <= |tracks|
    ensures var b := Best(tracks, shown, key, n);
            (b < 0 <==> forall i :: 0 <= i < n ==> !OfKey(tracks[i], key)) &&
            (b >= 0 ==> OfKey(tracks[b], key) &&
                        forall i :: 0 <= i < n && OfKey(tracks[i], key) && i != b ==> Before(tracks, shown, b, i))
  {
    if n > 0 {
      BestIsFirst(tracks, shown, key, n - 1);
    }
  }

  function DefaultOf(tracks: seq<Track>, shown: seq<bool>, preferred: seq<string>): (d: int)
    requires |shown| == |tracks|
    ensures -1 <= d < |tracks|
  {
    if preferred == [] then Best(tracks, shown, None, |tracks|)
    else
      var b := Best(tracks, shown, Some(preferred[0]), |tracks|);
      if b >= 0 then b else DefaultOf(tracks, shown, preferred[1..])
  }

  /** Of a title with tracks there is one default, the first by rank of the first preferred language a track is of,
      else of all. */
  lemma {:induction false} DefaultIsFirst(tracks: seq<Track>, shown: seq<bool>, preferred: seq<string>)
    returns (key: Option<string>)
    requires |shown| == |tracks| && tracks != []
    ensures DefaultOf(tracks, shown, preferred) == Best(tracks, shown, key, |tracks|) >= 0
    ensures key.Some? ==> key.value in preferred
    ensures forall k :: 0 <= k < |preferred| && (key.None? || preferred[k] != key.value) &&
                        (key.None? || forall j :: 0 <= j <= k ==> preferred[j] != key.value) ==>
                          forall i :: 0 <= i < |tracks| ==> tracks[i].key != preferred[k]
  {
    if preferred == [] {
      key := None;
      BestIsFirst(tracks, shown, key, |tracks|);
      assert OfKey(tracks[0], key);
    } else {
      var first := Some(preferred[0]);
      BestIsFirst(tracks, shown, first, |tracks|);
      if Best(tracks, shown, first, |tracks|) >= 0 {
        key := first;
      } else {
        key := DefaultIsFirst(tracks, shown, preferred[1..]);
        forall k | 0 <= k < |preferred| && (key.None? || forall j :: 0 <= j <= k ==> preferred[j] != key.value)
          ensures forall i :: 0 <= i < |tracks| ==> tracks[i].key != preferred[k]
        {
          if k == 0 {
            assert forall i :: 0 <= i < |tracks| ==> !OfKey(tracks[i], first);
          } else {
            assert preferred[1..][k - 1] == preferred[k];
            assert forall j :: 0 <= j <= k - 1 ==> preferred[1..][j] == preferred[j + 1];
          }
        }
      }
    }
  }

  /** The default passes over no track of its language that is shown where it is not, is for the film where it is not,
      is flagged where it is not, or comes before it: the earlier of these decides. */
  lemma DefaultPassesOver(tracks: seq<Track>, shown: seq<bool>, preferred: seq<string>, i: nat)
    requires |shown| == |tracks| && i < |tracks|
    ensures var d := DefaultOf(tracks, shown, preferred);
            d >= 0 &&
            var alike := shown[i] == shown[d] && tracks[i].ForTheFilm() == tracks[d].ForTheFilm();
            (tracks[i].key == tracks[d].key ==>
               (shown[i] ==> shown[d]) &&
               (shown[i] == shown[d] && tracks[i].ForTheFilm() ==> tracks[d].ForTheFilm()) &&
               (alike && tracks[i].flagged ==> tracks[d].flagged) &&
               (alike && tracks[i].flagged == tracks[d].flagged ==> d <= i))
  {
    var key := DefaultIsFirst(tracks, shown, preferred);
    BestIsFirst(tracks, shown, key, |tracks|);
  }

  /** Under the language settings the default is for the film wherever a track of its language is, and flagged wherever
      such a one is. */
  lemma DefaultIsForTheFilm(tracks: seq<Track>, l: Languages, preferred: seq<string>, i: nat)
    requires i < |tracks| && tracks[i].ForTheFilm()
    ensures var d := DefaultOf(tracks, ShownOf(tracks, l), preferred);
            d >= 0 &&
            (tracks[i].key == tracks[d].key ==>
               tracks[d].ForTheFilm() && (tracks[i].flagged ==> tracks[d].flagged))
  {
    DefaultPassesOver(tracks, ShownOf(tracks, l), preferred, i);
  }

  method First(tracks: seq<Track>, shown: seq<bool>, key: Option<string>) returns (best: int)
    requires |shown| == |tracks|
    ensures best == Best(tracks, shown, key, |tracks|)
  {
    best := -1;
    for i := 0 to |tracks|
      invariant best == Best(tracks, shown, key, i)
    {
      if OfKey(tracks[i], key) && (best < 0 || Before(tracks, shown, i, best)) {
        best := i;
      }
    }
  }

  method DefaultTrack(tracks: seq<Track>, shown: seq<bool>, preferred: seq<string>) returns (d: int)
    requires |shown| == |tracks|
    ensures d == DefaultOf(tracks, shown, preferred)
  {
    var k := 0;
    while k < |preferred|
      invariant 0 <= k <= |preferred|
      invariant DefaultOf(tracks, shown, preferred) == DefaultOf(tracks, shown, preferred[k..])
    {
      assert preferred[k..][0] == preferred[k] && preferred[k..][1..] == preferred[k + 1..];
      d := First(tracks, shown, Some(preferred[k]));
      if d >= 0 {
        return;
      }
      k := k + 1;
    }
    d := First(tracks, shown, None);
  }

  // ---- the companions

  /** The track may get a companion: of more than two channels, for the film and shown or the default one where the
      packager makes them of the tracks shown, else no commentary. */
  predicate Eligible(tracks: seq<Track>, which: Which, shown: seq<bool>, def: int, i: nat)
    requires |shown| == |tracks| && i < |tracks|
  {
    tracks[i].channels > 2.0 &&
    if which.Shown? then tracks[i].ForTheFilm() && (shown[i] || i == def) else !tracks[i].OldCommentary()
  }

  /** The first eligible track of each language, among the first n. */
  function Chosen(tracks: seq<Track>, which: Which, shown: seq<bool>, def: int, n: nat): (out: seq<nat>)
    requires |shown| == |tracks| && n <= |tracks|
    ensures forall k :: 0 <= k < |out| ==> out[k] < n
  {
    if n == 0 then []
    else
      var out := Chosen(tracks, which, shown, def, n - 1);
      if Eligible(tracks, which, shown, def, n - 1) && forall k :: 0 <= k < |out| ==>
          tracks[out[k]].key != tracks[n - 1].key
      then out + [n - 1] else out
  }

  predicate SurroundForFilm(t: Track) {
    t.channels > 2.0 && t.ForTheFilm()
  }

  function FirstForFilm(tracks: seq<Track>, n: nat): (out: seq<nat>)
    requires n <= |tracks|
  {
    if n == 0 then []
    else
      var out := FirstForFilm(tracks, n - 1);
      if out == [] && SurroundForFilm(tracks[n - 1]) then [n - 1] else out
  }

  function Companions(tracks: seq<Track>, which: Which, l: Languages, preferred: seq<string>): seq<nat> {
    var shown := ShownOf(tracks, l);
    var out := Chosen(tracks, which, shown, DefaultOf(tracks, shown, preferred), |tracks|);
    if which.Shown? && out == [] then FirstForFilm(tracks, |tracks|) else out
  }

  /** The languages of the chosen tracks. */
  ghost predicate SeenIn(tracks: seq<Track>, out: seq<nat>, seen: set<string>)
    requires forall k :: 0 <= k < |out| ==> out[k] < |tracks|
  {
    (forall k :: 0 <= k < |out| ==> tracks[out[k]].key in seen) &&
    forall x :: x in seen ==> exists k :: 0 <= k < |out| && tracks[out[k]].key == x
  }

  lemma SeenOneMore(tracks: seq<Track>, out: seq<nat>, seen: set<string>, i: nat)
    requires i < |tracks| && (forall k :: 0 <= k < |out| ==> out[k] < |tracks|) && SeenIn(tracks, out, seen)
    ensures SeenIn(tracks, out + [i], seen + {tracks[i].key})
  {
    var all := out + [i];
    forall x | x in seen + {tracks[i].key} ensures exists k :: 0 <= k < |all| && tracks[all[k]].key == x {
      if x == tracks[i].key {
        assert all[|out|] == i;
      } else {
        var k :| 0 <= k < |out| && tracks[out[k]].key == x;
        assert all[k] == out[k];
      }
    }
  }

  method Choose(tracks: seq<Track>, which: Which, shown: seq<bool>, def: int) returns (out: seq<nat>)
    requires |shown| == |tracks|
    ensures out == Chosen(tracks, which, shown, def, |tracks|)
  {
    out := [];
    var seen: set<string> := {};
    for i := 0 to |tracks|
      invariant out == Chosen(tracks, which, shown, def, i)
      invariant SeenIn(tracks, out, seen)
    {
      var a := tracks[i];
      if a.channels <= 2.0 {
        continue;
      }
      if which.Shown? {
        if !a.ForTheFilm() || (!shown[i] && i != def) {
          continue;
        }
      } else if a.OldCommentary() {
        continue;
      }
      if a.key in seen {
        continue;
      }
      SeenOneMore(tracks, out, seen, i);
      seen, out := seen + {a.key}, out + [i];
    }
  }

  method CompanionTracks(tracks: seq<Track>, which: Which, l: Languages, preferred: seq<string>) returns (out: seq<nat>)
    ensures out == Companions(tracks, which, l, preferred)
  {
    var shown, def := seq(|tracks|, i => false), -1;
    if which.Shown? {
      shown := ShownTracks(tracks, l);
      def := DefaultTrack(tracks, shown, preferred);
    } else {
      EveryIgnores(tracks, which, shown, def, ShownOf(tracks, l), DefaultOf(tracks, ShownOf(tracks, l), preferred),
                   |tracks|);
    }
    out := Choose(tracks, which, shown, def);
    if which.Shown? && out == [] {
      for i := 0 to |tracks|
        invariant FirstForFilm(tracks, i) == []
      {
        if tracks[i].channels > 2.0 && tracks[i].ForTheFilm() {
          NoneLater(tracks, i, |tracks|);
          return [i];
        }
      }
    }
  }

  lemma {:induction false} NoneLater(tracks: seq<Track>, i: nat, n: nat)
    requires i < n <= |tracks| && FirstForFilm(tracks, i) == [] && SurroundForFilm(tracks[i])
    ensures FirstForFilm(tracks, n) == [i]
  {
    if i + 1 < n {
      NoneLater(tracks, i, n - 1);
    }
  }

  /** A packager that makes companions of every track reads neither the language settings nor the default track. */
  lemma {:induction false} EveryIgnores(tracks: seq<Track>, which: Which, shown: seq<bool>, def: int, shown2: seq<bool>,
                                        def2: int, n: nat)
    requires !which.Shown? && |shown| == |shown2| == |tracks| && n <= |tracks|
    ensures Chosen(tracks, which, shown, def, n) == Chosen(tracks, which, shown2, def2, n)
  {
    if n > 0 {
      EveryIgnores(tracks, which, shown, def, shown2, def2, n - 1);
    }
  }

  ghost predicate OnePerLanguage(tracks: seq<Track>, out: seq<nat>) {
    (forall k :: 0 <= k < |out| ==> out[k] < |tracks| && tracks[out[k]].channels > 2.0) &&
    forall k, m :: 0 <= k < m < |out| ==> out[k] < out[m] && tracks[out[k]].key != tracks[out[m]].key
  }

  lemma ChosenGrows(tracks: seq<Track>, which: Which, shown: seq<bool>, def: int, n: nat)
    requires |shown| == |tracks| && 0 < n <= |tracks|
    ensures var was, out := Chosen(tracks, which, shown, def, n - 1), Chosen(tracks, which, shown, def, n);
            out == was ||
            (out == was + [n - 1] && Eligible(tracks, which, shown, def, n - 1) &&
             forall k :: 0 <= k < |was| ==> tracks[was[k]].key != tracks[n - 1].key)
  {
  }

  lemma {:induction false} ChosenAreEligible(tracks: seq<Track>, which: Which, shown: seq<bool>, def: int, n: nat)
    requires |shown| == |tracks| && n <= |tracks|
    ensures forall k :: 0 <= k < |Chosen(tracks, which, shown, def, n)| ==>
                          Eligible(tracks, which, shown, def, Chosen(tracks, which, shown, def, n)[k])
  {
    if n > 0 {
      ChosenAreEligible(tracks, which, shown, def, n - 1);
    }
  }

  lemma {:induction false} ChosenOnePerLanguage(tracks: seq<Track>, which: Which, shown: seq<bool>, def: int, n: nat)
    requires |shown| == |tracks| && n <= |tracks|
    ensures OnePerLanguage(tracks, Chosen(tracks, which, shown, def, n))
  {
    if n > 0 {
      ChosenOnePerLanguage(tracks, which, shown, def, n - 1);
      ChosenGrows(tracks, which, shown, def, n);
      var was := Chosen(tracks, which, shown, def, n - 1);
      if Chosen(tracks, which, shown, def, n) != was {
        OneMore(tracks, was, n - 1);
      }
    }
  }

  lemma OneMore(tracks: seq<Track>, out: seq<nat>, i: nat)
    requires OnePerLanguage(tracks, out) && i < |tracks| && tracks[i].channels > 2.0
    requires forall k :: 0 <= k < |out| ==> out[k] < i && tracks[out[k]].key != tracks[i].key
    ensures OnePerLanguage(tracks, out + [i])
  {
    var all := out + [i];
    forall k, m | 0 <= k < m < |all| ensures all[k] < all[m] && tracks[all[k]].key != tracks[all[m]].key {
      if m < |out| {
        assert out[k] < out[m] && tracks[out[k]].key != tracks[out[m]].key;
      }
    }
  }

  /** The first chosen track of a language at or before one that may get a companion. */
  lemma {:induction false} ChosenIsFirst(tracks: seq<Track>, which: Which, shown: seq<bool>, def: int, n: nat, i: nat)
    returns (k: nat)
    requires |shown| == |tracks| && i < n <= |tracks| && Eligible(tracks, which, shown, def, i)
    ensures var out := Chosen(tracks, which, shown, def, n);
            k < |out| && out[k] <= i && tracks[out[k]].key == tracks[i].key
  {
    var was := Chosen(tracks, which, shown, def, n - 1);
    if i < n - 1 {
      k := ChosenIsFirst(tracks, which, shown, def, n - 1, i);
    } else if j :| 0 <= j < |was| && tracks[was[j]].key == tracks[i].key {
      k := j;
    } else {
      k := |was|;
    }
  }

  lemma {:induction false} FirstForFilmIs(tracks: seq<Track>, n: nat)
    requires n <= |tracks|
    ensures var out := FirstForFilm(tracks, n);
            (out == [] <==> forall i :: 0 <= i < n ==> !SurroundForFilm(tracks[i])) &&
            (out != [] ==> |out| == 1 && out[0] < n && SurroundForFilm(tracks[out[0]]) &&
                           forall i :: 0 <= i < out[0] ==> !SurroundForFilm(tracks[i]))
  {
    if n > 0 {
      FirstForFilmIs(tracks, n - 1);
    }
  }

  /** The companions are of tracks of more than two channels, in their order, one a language; where the packager makes
      them of the tracks shown they are for the film, and there is one exactly when some such track is. */
  lemma CompanionsOnePerLanguage(tracks: seq<Track>, which: Which, l: Languages, preferred: seq<string>)
    ensures var out := Companions(tracks, which, l, preferred);
            OnePerLanguage(tracks, out) &&
            (which.Shown? ==>
               (forall k :: 0 <= k < |out| ==> tracks[out[k]].ForTheFilm()) &&
               (out != [] <==> exists i :: 0 <= i < |tracks| && SurroundForFilm(tracks[i]))) &&
            (!which.Shown? ==>
               (forall k :: 0 <= k < |out| ==> !tracks[out[k]].OldCommentary()) &&
               (out != [] <==> exists i :: 0 <= i < |tracks| && tracks[i].channels > 2.0 && !tracks[i].OldCommentary()))
  {
    var shown := ShownOf(tracks, l);
    var def := DefaultOf(tracks, shown, preferred);
    ChosenOnePerLanguage(tracks, which, shown, def, |tracks|);
    ChosenAreEligible(tracks, which, shown, def, |tracks|);
    FirstForFilmIs(tracks, |tracks|);
    var out := Chosen(tracks, which, shown, def, |tracks|);
    if out != [] {
      assert Eligible(tracks, which, shown, def, out[0]);
    }
    if !which.Shown? {
      forall i | 0 <= i < |tracks| && tracks[i].channels > 2.0 && !tracks[i].OldCommentary() ensures out != [] {
        var k := ChosenIsFirst(tracks, which, shown, def, |tracks|, i);
      }
    }
  }

  /** A track the packager would make a companion of, for what it is: of more than two channels, for the film where the
      packager makes them of the tracks shown, else no commentary as the check took it before. */
  predicate Deserves(t: Track, which: Which) {
    t.channels > 2.0 && if which.Shown? then t.ForTheFilm() else !t.OldCommentary()
  }

  /** There is a companion exactly when a track deserves one; every companion does; and each language of a track that
      may get one has its companion, of a track no later. Where one may, only tracks that may get one; else the first
      that deserves one does. */
  lemma DeservingHaveOne(tracks: seq<Track>, which: Which, l: Languages, preferred: seq<string>)
    ensures var out := Companions(tracks, which, l, preferred);
            (out != [] <==> exists i :: 0 <= i < |tracks| && Deserves(tracks[i], which)) &&
            (forall k :: 0 <= k < |out| ==> out[k] < |tracks| && Deserves(tracks[out[k]], which)) &&
            (forall i :: 0 <= i < |tracks| && MayGetOne(tracks, which, l, preferred, i) ==>
                           exists k :: 0 <= k < |out| && out[k] <= i && tracks[out[k]].key == tracks[i].key) &&
            ((forall k :: 0 <= k < |out| ==> MayGetOne(tracks, which, l, preferred, out[k])) ||
             (|out| == 1 && (forall i :: 0 <= i < |tracks| ==> !MayGetOne(tracks, which, l, preferred, i)) &&
              forall i :: 0 <= i < out[0] ==> !Deserves(tracks[i], which)))
  {
    CompanionsOnePerLanguage(tracks, which, l, preferred);
    var out, shown := Companions(tracks, which, l, preferred), ShownOf(tracks, l);
    var def := DefaultOf(tracks, shown, preferred);
    if i :| 0 <= i < |tracks| && Deserves(tracks[i], which) {
      assert which.Shown? ==> SurroundForFilm(tracks[i]);
    }
    forall i | 0 <= i < |tracks| && MayGetOne(tracks, which, l, preferred, i)
      ensures Chosen(tracks, which, shown, def, |tracks|) != []
      ensures exists k :: 0 <= k < |out| && out[k] <= i && tracks[out[k]].key == tracks[i].key
    {
      var k := ChosenIsFirst(tracks, which, shown, def, |tracks|, i);
      assert Chosen(tracks, which, shown, def, |tracks|) != [];
    }
    ChosenAreEligible(tracks, which, shown, def, |tracks|);
    FirstForFilmIs(tracks, |tracks|);
  }

  /** A track of more than two channels that may get a companion: where the packager makes them of the tracks shown, one
      for the film that is shown or the default one; else one that is no commentary as the check took it before. */
  predicate MayGetOne(tracks: seq<Track>, which: Which, l: Languages, preferred: seq<string>, i: nat)
    requires i < |tracks|
  {
    tracks[i].channels > 2.0 &&
    (which.Shown? ==>
       tracks[i].ForTheFilm() &&
       (ShownOf(tracks, l)[i] || DefaultOf(tracks, ShownOf(tracks, l), preferred) == i)) &&
    (!which.Shown? ==> !tracks[i].comment && !tracks[i].saysComment)
  }
}
