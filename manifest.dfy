/**
 * Suffix matching over a manifest, the shape shared by caption discovery and
 * the extension fallback: for each suffix in turn, append the manifest names
 * whose lower-cased form ends in it.
 */
module Manifest {
  import opened Text

  /** The names, in manifest order, whose lower-cased form ends in `suffix`. */
  function EndingIn(names: seq<string>, suffix: string): (r: seq<string>)
    ensures forall x :: x in r <==> x in names && EndsWith(Lower(x), suffix)
    ensures forall x :: multiset(r)[x] == if EndsWith(Lower(x), suffix) then multiset(names)[x] else 0
  {
    if names == [] then []
    else
      var init := names[..|names| - 1];
      var last := names[|names| - 1];
      assert names == init + [last];
      var rest := EndingIn(init, suffix);
      if EndsWith(Lower(last), suffix) then rest + [last] else rest
  }

  /** The names ending in each suffix, suffix after suffix. */
  function BySuffix(names: seq<string>, suffixes: seq<string>): seq<string> {
    if suffixes == [] then []
    else BySuffix(names, suffixes[..|suffixes| - 1]) + EndingIn(names, suffixes[|suffixes| - 1])
  }

  /** How many of the suffixes the lower-cased name ends in (a suffix listed twice counts twice). */
  function SuffixHits(name: string, suffixes: seq<string>): nat {
    if suffixes == [] then 0
    else SuffixHits(name, suffixes[..|suffixes| - 1])
         + (if EndsWith(Lower(name), suffixes[|suffixes| - 1]) then 1 else 0)
  }

  /** A name is selected exactly when it is in the manifest and ends in one of the suffixes. */
  lemma {:induction false} BySuffixMembers(names: seq<string>, suffixes: seq<string>)
    ensures forall x :: x in BySuffix(names, suffixes) <==> x in names && SuffixHits(x, suffixes) > 0
  {
    if suffixes != [] {
      BySuffixMembers(names, suffixes[..|suffixes| - 1]);
    }
  }

  /** A name is selected once per suffix it ends in, for each time it is in the manifest. */
  lemma {:induction false} BySuffixCounts(names: seq<string>, suffixes: seq<string>, x: string)
    ensures multiset(BySuffix(names, suffixes))[x] == multiset(names)[x] * SuffixHits(x, suffixes)
  {
    if suffixes != [] {
      var init := suffixes[..|suffixes| - 1];
      var last := suffixes[|suffixes| - 1];
      BySuffixCounts(names, init, x);
      var m := multiset(names)[x];
      var a := SuffixHits(x, init);
      var h := if EndsWith(Lower(x), last) then 1 else 0;
      assert multiset(BySuffix(names, suffixes))[x] == m * a + m * h by {
        assert BySuffix(names, suffixes) == BySuffix(names, init) + EndingIn(names, last);
      }
      ScaleSum(m, a, h, multiset(BySuffix(names, suffixes))[x], SuffixHits(x, suffixes));
    }
  }

  /** A name has a hit exactly when it ends in one of the suffixes. */
  lemma {:induction false} SuffixHitsPositive(name: string, suffixes: seq<string>)
    ensures SuffixHits(name, suffixes) > 0 <==> exists k :: 0 <= k < |suffixes| && EndsWith(Lower(name), suffixes[k])
  {
    if suffixes != [] {
      var n := |suffixes| - 1;
      SuffixHitsPositive(name, suffixes[..n]);
      if exists k :: 0 <= k < |suffixes| && EndsWith(Lower(name), suffixes[k]) {
        var k :| 0 <= k < |suffixes| && EndsWith(Lower(name), suffixes[k]);
        if k < n {
          assert suffixes[..n][k] == suffixes[k];
        }
      }
      if SuffixHits(name, suffixes[..n]) > 0 {
        var k :| 0 <= k < n && EndsWith(Lower(name), suffixes[..n][k]);
        assert suffixes[k] == suffixes[..n][k];
      }
    }
  }

  /** A suffix the name ends in adds one to the hits of the suffixes before it. */
  lemma {:induction false} HitCounted(name: string, suffixes: seq<string>, k: nat)
    requires k < |suffixes| && EndsWith(Lower(name), suffixes[k])
    ensures SuffixHits(name, suffixes) >= SuffixHits(name, suffixes[..k]) + 1
    decreases |suffixes|
  {
    var n := |suffixes| - 1;
    if k < n {
      HitCounted(name, suffixes[..n], k);
      assert suffixes[..n][..k] == suffixes[..k];
    }
  }

  lemma ScaleSum(m: nat, a: nat, b: nat, c: nat, t: nat)
    requires c == m * a + m * b && t == a + b
    ensures c == m * t
  {
  }

  /** `for ex in suffixes: files = files + [f for f in names if f.lower().endswith(ex)]` */
  method CollectBySuffix(names: seq<string>, suffixes: seq<string>) returns (files: seq<string>)
    ensures files == BySuffix(names, suffixes)
    ensures forall x :: x in files <==> x in names && SuffixHits(x, suffixes) > 0
  {
    files := [];
    for i := 0 to |suffixes|
      invariant files == BySuffix(names, suffixes[..i])
    {
      assert suffixes[..i + 1][..i] == suffixes[..i];
      files := files + EndingIn(names, suffixes[i]);
    }
    assert suffixes[..|suffixes|] == suffixes;
    BySuffixMembers(names, suffixes);
  }
}

/**
 * The licence test: a `licenseurl` whose lower-cased text contains the
 * Creative Commons marker.  The download script reads it from the item's
 * `_meta.xml`; the search script from the metadata record.
 */
module LicenseGate {
  import opened Options
  import opened Text

  /** A descriptor file in the item directory: not there, not parseable, or parsed. */
  datatype Xml<T> = Absent | Malformed | Parsed(doc: T)

  /** The result of a step that can raise an exception. */
  datatype Raising<T> = Returns(value: T) | Raises

  const Marker := "creativecommons"

  predicate MentionsCreativeCommons(url: string) {
    Contains(Lower(url), Marker)
  }

  /**
   * `is_cc_licensed`: the `_meta.xml` document is the text of its
   * `licenseurl` elements, in document order; an element without text has
   * no `data`, so reading it raises, as does parsing a malformed document.
   */
  function IsCcLicensed(meta: Xml<seq<Option<string>>>): (r: Raising<bool>)
    ensures r == Returns(true) <==>
      meta.Parsed? && meta.doc != [] && meta.doc[0].Some? && MentionsCreativeCommons(meta.doc[0].value)
    ensures r == Raises <==> meta.Malformed? || (meta.Parsed? && meta.doc != [] && meta.doc[0].None?)
  {
    match meta
    case Absent => Returns(false)
    case Malformed => Raises
    case Parsed(urls) =>
      if urls == [] then Returns(false)
      else if urls[0].None? then Raises
      else Returns(MentionsCreativeCommons(urls[0].value))
  }

  /** The marker may stand anywhere in the URL and in any letter case. */
  lemma MarkerAnywhere(url: string, i: nat)
    requires OccursAt(Lower(url), Marker, i)
    ensures IsCcLicensed(Parsed([Some(url)])) == Returns(true)
  {
    ContainsAt(Lower(url), Marker);
  }

  /** Only the first `licenseurl` counts: one without the marker leaves the item unlicensed, whatever follows it. */
  lemma NoMarkerNoLicence(url: string, rest: seq<Option<string>>)
    requires !MentionsCreativeCommons(url)
    ensures IsCcLicensed(Parsed([Some(url)] + rest)) == Returns(false)
  {
    assert ([Some(url)] + rest)[0] == Some(url);
  }

  /** For instance, a URL shorter than the marker leaves the item unlicensed even when a later one names Creative Commons. */
  lemma NoMarkerExample(later: string)
    ensures IsCcLicensed(Parsed([Some("http://gpl.org"), Some(later)])) == Returns(false)
  {
    var url := "http://gpl.org";
    ContainsAt(Lower(url), Marker);
    NoMarkerNoLicence(url, [Some(later)]);
    assert [Some(url)] + [Some(later)] == [Some(url), Some(later)];
  }
}

/**
 * The choice of media files: the direct mp3/mp4 match over the whole
 * manifest, else the blocklist and the extension allow-lists.
 */
module MediaSelector {
  import opened Options
  import opened Text
  import opened Manifest

  const VideoExtensions: seq<string> := [
    ".m4v", ".3gp", ".wmv", ".mkv", ".avi", ".flv", ".gif", ".3g2", ".webm", ".gifv", ".mpg", ".mp2",
    ".m2v", ".mpeg", ".mpe", ".mpv", ".amv", ".flv", ".f4v", ".f4p", ".f4a", ".f4b", ".vob", ".mts",
    ".m2ts", ".ts", ".mov", ".qt", ".yuv", ".rm", ".rmvb", ".svi"]

  const AudioExtensions: seq<string> := [
    ".m4a", ".m4b", ".m4p", ".mp3", ".wav", ".rf64", ".webm", ".wv", ".raw", ".ra", ".rm", ".wma",
    ".3gp", ".aac", ".au", ".aiff", ".gsm", ".amr", ".awb", ".msv", ".nmf", ".aa", ".flac", ".aax",
    ".act", ".aiff", ".alac", ".mmf", ".opus", ".dfv", ".ape", ".dss", ".ogg", ".oga", ".mogg",
    ".8svx", ".voc", ".vox", ".sln", ".tta", ".cda", ".iklax", ".ivs"]

  /** Descriptor, database, archive, torrent, text and still-image files are never media. */
  const Blocklist: seq<string> := [".xml", ".sqlite", ".zip", ".torrent", ".txt", ".jpg"]

  predicate WantsVideo(media: string) { media == "both" || media == "movies" }
  predicate WantsAudio(media: string) { media == "both" || media == "audio" }

  /** The direct-match test: no dot in either suffix, so `podcastmp3` matches too. */
  predicate DirectHit(name: string, media: string) {
    (WantsAudio(media) && EndsWith(Lower(name), "mp3")) || (WantsVideo(media) && EndsWith(Lower(name), "mp4"))
  }

  /** The comprehension of the download step: direct hits, in manifest order, over the whole manifest. */
  function DirectMatch(manifest: seq<string>, media: string): (r: seq<string>)
    ensures forall x :: x in r <==> x in manifest && DirectHit(x, media)
    ensures forall x :: multiset(r)[x] == if DirectHit(x, media) then multiset(manifest)[x] else 0
  {
    if manifest == [] then []
    else
      var init := manifest[..|manifest| - 1];
      var last := manifest[|manifest| - 1];
      assert manifest == init + [last];
      var rest := DirectMatch(init, media);
      if DirectHit(last, media) then rest + [last] else rest
  }

  predicate Blocked(name: string) {
    SuffixHits(name, Blocklist) > 0
  }

  /** The manifest without blocklisted names, in manifest order. */
  function Unblocked(manifest: seq<string>): (r: seq<string>)
    ensures forall x :: x in r <==> x in manifest && !Blocked(x)
  {
    if manifest == [] then []
    else
      var init := manifest[..|manifest| - 1];
      var last := manifest[|manifest| - 1];
      assert manifest == init + [last];
      var rest := Unblocked(init);
      if Blocked(last) then rest else rest + [last]
  }

  /** Names are kept with their repeats: an unblocked name as often as the manifest lists it. */
  lemma {:induction false} UnblockedCounts(manifest: seq<string>, x: string)
    ensures multiset(Unblocked(manifest))[x] == if Blocked(x) then 0 else multiset(manifest)[x]
  {
    if manifest != [] {
      var init := manifest[..|manifest| - 1];
      UnblockedCounts(init, x);
      assert manifest == init + [manifest[|manifest| - 1]];
    }
  }

  /** All video-extension matches first (both, movies), then all audio-extension matches (both, audio). */
  function Fallback(files: seq<string>, media: string): seq<string> {
    (if WantsVideo(media) then BySuffix(files, VideoExtensions) else [])
    + (if WantsAudio(media) then BySuffix(files, AudioExtensions) else [])
  }

  /** The value `find_original_file` returns; `None` stands for the cleanup-and-return-None paths. */
  function FindOriginal(manifest: seq<string>, media: string): Option<seq<string>> {
    var files := Unblocked(manifest);
    if files == [] then None
    else
      var selected := Fallback(files, media);
      if selected == [] then None else Some(selected)
  }

  /** The selection of the download step: the direct match when non-empty, else the fallback. */
  function SelectMedia(manifest: seq<string>, media: string): Option<seq<string>> {
    var direct := DirectMatch(manifest, media);
    if direct != [] then Some(direct) else FindOriginal(manifest, media)
  }

  /** Any fallback name is an unblocked manifest name with an extension allowed for the media type, and vice versa. */
  lemma FallbackMembers(manifest: seq<string>, media: string, x: string)
    ensures x in Fallback(Unblocked(manifest), media) <==>
      x in manifest && !Blocked(x) &&
      ((WantsVideo(media) && SuffixHits(x, VideoExtensions) > 0) || (WantsAudio(media) && SuffixHits(x, AudioExtensions) > 0))
  {
    BySuffixMembers(Unblocked(manifest), VideoExtensions);
    BySuffixMembers(Unblocked(manifest), AudioExtensions);
  }

  /** How many times the fallback lists a name: its hits among the extension lists the media type asks for. */
  function FallbackHits(name: string, media: string): nat {
    (if WantsVideo(media) then SuffixHits(name, VideoExtensions) else 0)
    + (if WantsAudio(media) then SuffixHits(name, AudioExtensions) else 0)
  }

  /** A name is repeated once per matching extension of each list asked for (`.flv`, `.aiff` are listed twice). */
  lemma FallbackCounts(files: seq<string>, media: string, x: string)
    ensures multiset(Fallback(files, media))[x] == multiset(files)[x] * FallbackHits(x, media)
  {
    BySuffixCounts(files, VideoExtensions, x);
    BySuffixCounts(files, AudioExtensions, x);
    FallbackSplit(files, media, x);
    ScaleEither(multiset(Fallback(files, media))[x], FallbackHits(x, media),
                multiset(BySuffix(files, VideoExtensions))[x], multiset(BySuffix(files, AudioExtensions))[x],
                multiset(files)[x], SuffixHits(x, VideoExtensions), SuffixHits(x, AudioExtensions),
                WantsVideo(media), WantsAudio(media));
  }

  /** Over the manifest: an unblocked name is listed once per manifest entry and matching extension, a blocked one never. */
  lemma FallbackManifestCounts(manifest: seq<string>, media: string, x: string)
    ensures multiset(Fallback(Unblocked(manifest), media))[x] ==
      if Blocked(x) then 0 else multiset(manifest)[x] * FallbackHits(x, media)
  {
    var files := Unblocked(manifest);
    FallbackCounts(files, media, x);
    UnblockedCounts(manifest, x);
    var hits := FallbackHits(x, media);
    if Blocked(x) {
      assert multiset(files)[x] * hits == 0 * hits == 0;
    }
  }

  lemma ScaleEither(c: nat, t: nat, p: nat, q: nat, m: nat, a: nat, b: nat, useA: bool, useB: bool)
    requires c == (if useA then p else 0) + (if useB then q else 0)
    requires t == (if useA then a else 0) + (if useB then b else 0)
    requires p == m * a && q == m * b
    ensures c == m * t
  {
    if useA && useB {
      assert m * (a + b) == m * a + m * b;
    }
  }

  lemma FallbackSplit(files: seq<string>, media: string, x: string)
    ensures multiset(Fallback(files, media))[x] ==
      (if WantsVideo(media) then multiset(BySuffix(files, VideoExtensions))[x] else 0)
      + (if WantsAudio(media) then multiset(BySuffix(files, AudioExtensions))[x] else 0)
  {
  }

  /** Every selected name is a manifest name, and a fallback selection holds no blocklisted name. */
  lemma SelectionFromManifest(manifest: seq<string>, media: string)
    requires SelectMedia(manifest, media).Some?
    ensures SelectMedia(manifest, media).value != []
    ensures forall x :: x in SelectMedia(manifest, media).value ==> x in manifest
    ensures DirectMatch(manifest, media) == [] ==>
      forall x :: x in SelectMedia(manifest, media).value ==> !Blocked(x)
  {
    forall x | x in SelectMedia(manifest, media).value && DirectMatch(manifest, media) == []
      ensures x in manifest && !Blocked(x)
    {
      FallbackMembers(manifest, media, x);
    }
  }

  /** The direct match wins exactly when some manifest name is a direct hit; the fallback is consulted otherwise. */
  lemma SelectionPriority(manifest: seq<string>, media: string)
    ensures (exists x :: x in manifest && DirectHit(x, media)) <==> SelectMedia(manifest, media) == Some(DirectMatch(manifest, media)) && DirectMatch(manifest, media) != []
    ensures !(exists x :: x in manifest && DirectHit(x, media)) ==> SelectMedia(manifest, media) == FindOriginal(manifest, media)
  {
    var direct := DirectMatch(manifest, media);
    if exists x :: x in manifest && DirectHit(x, media) {
      var x :| x in manifest && DirectHit(x, media);
      assert x in direct;
    } else {
      assert forall i :: 0 <= i < |direct| ==> direct[i] in direct;
    }
  }

  /** A direct hit is chosen over everything else: `x.flac` is passed over for `x.mp3`. */
  lemma DirectHitExample()
    ensures SelectMedia(["x.mp3", "x.flac", "x_meta.xml"], "audio") == Some(["x.mp3"])
  {
    DirectMatchExample();
  }

  lemma DirectMatchExample()
    ensures DirectMatch(["x.mp3", "x.flac", "x_meta.xml"], "audio") == ["x.mp3"]
  {
    var m := ["x.mp3", "x.flac", "x_meta.xml"];
    DirectHitsExample();
    assert m[..1] == ["x.mp3"] && m[..2] == ["x.mp3", "x.flac"];
    assert ["x.mp3"][..0] == [];
    assert DirectMatch(["x.mp3"], "audio") == ["x.mp3"];
    assert DirectMatch(["x.mp3", "x.flac"], "audio") == ["x.mp3"];
  }

  lemma DirectHitsExample()
    ensures DirectHit("x.mp3", "audio") && !DirectHit("x.flac", "audio") && !DirectHit("x_meta.xml", "audio")
  {
    assert Lower("x.mp3") == "x.mp3";
    assert Lower("x.flac") == "x.flac";
    assert Lower("x_meta.xml") == "x_meta.xml";
  }

  /** Blocklisted names only, in any letter case: nothing is selected. */
  lemma BlockedOnlyExample()
    ensures SelectMedia(["cover.JPG", "notes.txt"], "both") == None
  {
    BlockedOnlyParts();
  }

  lemma BlockedOnlyParts()
    ensures Unblocked(["cover.JPG", "notes.txt"]) == []
    ensures DirectMatch(["cover.JPG", "notes.txt"], "both") == []
  {
    var m := ["cover.JPG", "notes.txt"];
    BlockedExamples();
    assert m[..1] == ["cover.JPG"];
    assert ["cover.JPG"][..0] == [];
    assert Unblocked(["cover.JPG"]) == [];
    assert DirectMatch(["cover.JPG"], "both") == [];
  }

  lemma BlockedExamples()
    ensures Blocked("cover.JPG") && Blocked("notes.txt")
    ensures !DirectHit("cover.JPG", "both") && !DirectHit("notes.txt", "both")
  {
    assert Lower("cover.JPG") == "cover.jpg";
    assert Lower("notes.txt") == "notes.txt";
    HitCounted("cover.JPG", Blocklist, 5);
    HitCounted("notes.txt", Blocklist, 4);
  }

  /** `.flv` is listed twice among the video extensions: a lone `.flv` name is selected at least twice. */
  lemma {:induction false} RepeatedFlv(name: string)
    requires EndsWith(Lower(name), ".flv")
    ensures SelectMedia([name], "movies").Some?
    ensures multiset(SelectMedia([name], "movies").value)[name] >= 2
  {
    var one: seq<string> := [name];
    assert one[..0] == [];
    FlvIsCandidate(name);
    assert Unblocked(one) == one;
    assert DirectMatch(one, "movies") == [];
    var picked := Fallback(one, "movies");
    assert FindOriginal(one, "movies") == if picked == [] then None else Some(picked);
    FlvHitsTwice(name);
    assert FallbackHits(name, "movies") >= 2;
    FallbackCounts(one, "movies", name);
    assert multiset(one)[name] == 1;
    assert multiset(picked)[name] >= 2;
    assert picked != [];
  }

  lemma {:induction false} FlvIsCandidate(name: string)
    requires EndsWith(Lower(name), ".flv")
    ensures !Blocked(name) && !DirectHit(name, "movies")
  {
    var low := Lower(name);
    assert low[|low| - 1] == 'v';
    SuffixHitsPositive(name, Blocklist);
    forall k | 0 <= k < |Blocklist|
      ensures !EndsWith(low, Blocklist[k])
    {
      var b := Blocklist[k];
      assert b[|b| - 1] != 'v';
    }
  }

  lemma {:induction false} FlvHitsTwice(name: string)
    requires EndsWith(Lower(name), ".flv")
    ensures SuffixHits(name, VideoExtensions) >= 2
  {
    assert VideoExtensions[17] == ".flv" && VideoExtensions[5] == ".flv";
    HitCounted(name, VideoExtensions, 17);
    assert VideoExtensions[..17][5] == ".flv";
    HitCounted(name, VideoExtensions[..17], 5);
    assert VideoExtensions[..17][..5] == VideoExtensions[..5];
  }

  /** A media value other than `both`, `audio` and `movies` selects nothing. */
  lemma UnknownMediaSelectsNothing(manifest: seq<string>, media: string)
    requires !WantsVideo(media) && !WantsAudio(media)
    ensures SelectMedia(manifest, media) == None
  {
    var direct := DirectMatch(manifest, media);
    assert forall i :: 0 <= i < |direct| ==> direct[i] in direct;
  }
}

/**
 * Caption discovery: candidates by a fixed suffix order, fetched one at a
 * time until the first fetch that does not raise.
 */
module CaptionFetcher {
  import opened Text
  import opened Manifest

  const CaptionSuffixes: seq<string> := ["cc5.txt", "cc5.srt", "asr.js", "asr.srt", "align.srt", "align.json"]

  function CaptionCandidates(manifest: seq<string>): seq<string> {
    BySuffix(manifest, CaptionSuffixes)
  }

  /** Some candidate can be fetched without raising. */
  predicate SomeFetchable(candidates: seq<string>, raising: set<string>) {
    exists c :: c in candidates && c !in raising
  }

  /** The last fetch of a run of attempts did not raise. */
  predicate EndsInSuccess(attempts: seq<string>, raising: set<string>) {
    attempts != [] && attempts[|attempts| - 1] !in raising
  }

  /**
   * The names fetched from `candidates` when a fetch of a name in `raising`
   * raises: every name up to and including the first that does not raise.
   */
  function CaptionAttempts(candidates: seq<string>, raising: set<string>): (r: seq<string>)
    ensures |r| <= |candidates| && r == candidates[..|r|]
    ensures forall k :: 0 <= k < |r| - 1 ==> r[k] in raising
    ensures SomeFetchable(candidates, raising) <==> EndsInSuccess(r, raising)
    ensures r == candidates || EndsInSuccess(r, raising)
  {
    if candidates == [] then []
    else if candidates[0] in raising then
      var rest := CaptionAttempts(candidates[1..], raising);
      assert forall c :: c in candidates ==> c == candidates[0] || c in candidates[1..];
      [candidates[0]] + rest
    else [candidates[0]]
  }

  /** Every download of `tried` raised. */
  predicate AllRaise(tried: seq<string>, raising: set<string>) {
    forall k :: 0 <= k < |tried| ==> tried[k] in raising
  }

  /** The fetch stops at the first candidate that does not raise. */
  lemma {:induction false} CaptionAttemptsStop(candidates: seq<string>, raising: set<string>, i: nat)
    requires i < |candidates| && candidates[i] !in raising
    requires AllRaise(candidates[..i], raising)
    ensures CaptionAttempts(candidates, raising) == candidates[..i + 1]
  {
    if i > 0 {
      var rest := candidates[1..];
      var tried := candidates[..i];
      var pre := rest[..i - 1];
      assert tried[0] == candidates[0];
      forall k | 0 <= k < |pre|
        ensures pre[k] in raising
      {
        assert pre[k] == tried[k + 1];
      }
      CaptionAttemptsStop(rest, raising, i - 1);
      assert CaptionAttempts(candidates, raising) == [candidates[0]] + rest[..i];
      assert [candidates[0]] + rest[..i] == candidates[..i + 1];
    }
  }

  /** When every candidate raises, every candidate is attempted and none is found. */
  lemma {:induction false} CaptionAttemptsExhaust(candidates: seq<string>, raising: set<string>)
    requires AllRaise(candidates, raising)
    ensures CaptionAttempts(candidates, raising) == candidates
    ensures !SomeFetchable(candidates, raising)
  {
    if candidates != [] {
      CaptionAttemptsExhaust(candidates[1..], raising);
    }
  }
}
