/**
 * The per-identifier fetch pipeline of the download script and its driver.
 * The save directory is the set of item directories present on disk; every
 * call to the archive's download function is appended to a log.  What the
 * archive holds for an item is a `RemoteItem`: which glob patterns raise
 * when downloaded, and the two descriptor files as they land locally.
 */
module ItemPipeline {
  import opened Options
  import opened Text
  import opened WorkList
  import opened LicenseGate
  import opened Manifest
  import opened MediaSelector
  import opened CaptionFetcher

  const FilesXmlPattern := "*_files.xml"
  const MetaXmlPattern := "*_meta.xml"

  /**
   * One item as the archive serves it: the patterns whose download raises,
   * the names listed by its `_files.xml`, and the `licenseurl` texts of its
   * `_meta.xml`.
   */
  datatype RemoteItem = RemoteItem(raising: set<string>, filesXml: Xml<seq<string>>, metaXml: Xml<seq<Option<string>>>)

  /** One call of the archive's download function: which item, which glob pattern. */
  datatype Download = Download(identifier: string, pattern: string)

  /** How the handling of one identifier ended. */
  datatype Outcome =
    | Stale               // the item directory already existed: removed, nothing fetched
    | MetadataFetchFailed // downloading `_files.xml` or `_meta.xml` raised
    | NotCcLicensed       // the licence check was on and did not pass
    | MissingFilesXml     // no `_files.xml` in the item directory
    | NoMedia             // `find_original_file` returned None
    | Raised              // an exception inside the guarded block
    | Completed(files: seq<string>)

  /** The options of `download_data` that shape one item's handling. */
  datatype Settings = Settings(media: string, checkCc: bool, getCaption: bool)

  /** The outcome of one identifier and the patterns it downloaded, in order. */
  datatype Trace = Trace(outcome: Outcome, patterns: seq<string>)

  /** The last download of a run of attempts raised. */
  predicate EndsInRaise(attempts: seq<string>, raising: set<string>) {
    attempts != [] && attempts[|attempts| - 1] in raising
  }

  /** Downloads `files` in order until one raises; the raising one is attempted too. */
  function ContentAttempts(files: seq<string>, raising: set<string>): (r: seq<string>)
    ensures |r| <= |files| && r == files[..|r|]
    ensures forall k :: 0 <= k < |r| - 1 ==> r[k] !in raising
    ensures (exists f :: f in files && f in raising) <==> EndsInRaise(r, raising)
    ensures r == files || EndsInRaise(r, raising)
  {
    if files == [] then []
    else if files[0] !in raising then
      var rest := ContentAttempts(files[1..], raising);
      assert forall f :: f in files ==> f == files[0] || f in files[1..];
      [files[0]] + rest
    else [files[0]]
  }

  lemma {:induction false} ContentAttemptsStop(files: seq<string>, raising: set<string>, i: nat)
    requires i < |files| && files[i] in raising
    requires forall k :: 0 <= k < i ==> files[k] !in raising
    ensures ContentAttempts(files, raising) == files[..i + 1]
  {
    if i > 0 {
      var rest := files[1..];
      forall k | 0 <= k < i - 1
        ensures rest[k] !in raising
      {
        assert rest[k] == files[k + 1];
      }
      ContentAttemptsStop(rest, raising, i - 1);
      assert files[0] !in raising;
      assert ContentAttempts(files, raising) == [files[0]] + rest[..i];
      assert [files[0]] + rest[..i] == files[..i + 1];
    }
  }

  lemma {:induction false} ContentAttemptsExhaust(files: seq<string>, raising: set<string>)
    requires forall k :: 0 <= k < |files| ==> files[k] !in raising
    ensures ContentAttempts(files, raising) == files
  {
    if files != [] {
      ContentAttemptsExhaust(files[1..], raising);
    }
  }

  /** The stages of `get_data`, as a function of whether the directory pre-exists and what the archive serves. */
  function Run(preexisting: bool, item: RemoteItem, s: Settings): Trace {
    if preexisting then Trace(Stale, [])
    else if FilesXmlPattern in item.raising then Trace(MetadataFetchFailed, [FilesXmlPattern])
    else if MetaXmlPattern in item.raising then Trace(MetadataFetchFailed, [FilesXmlPattern, MetaXmlPattern])
    else
      var rest := Gates(item, s);
      Trace(rest.outcome, [FilesXmlPattern, MetaXmlPattern] + rest.patterns)
  }

  /** With both descriptors downloaded: the licence gate, then reading `_files.xml`. */
  function Gates(item: RemoteItem, s: Settings): Trace {
    var licence := if s.checkCc then IsCcLicensed(item.metaXml) else Returns(true);
    if licence.Raises? then Trace(Raised, [])
    else if !licence.value then Trace(NotCcLicensed, [])
    else match item.filesXml
      case Absent => Trace(MissingFilesXml, [])
      case Malformed => Trace(Raised, [])
      case Parsed(manifest) => Transfer(manifest, item, s)
  }

  /** With the manifest read: captions when asked for, the media selection, then the content downloads. */
  function Transfer(manifest: seq<string>, item: RemoteItem, s: Settings): Trace {
    var captions := if s.getCaption then CaptionAttempts(CaptionCandidates(manifest), item.raising) else [];
    match SelectMedia(manifest, s.media)
    case None => Trace(NoMedia, captions)
    case Some(files) =>
      var content := ContentAttempts(files, item.raising);
      Trace(if EndsInRaise(content, item.raising) then Raised else Completed(files), captions + content)
  }

  /** The log entries of `patterns` downloaded for `id`. */
  function Logged(id: string, patterns: seq<string>): (r: seq<Download>)
    ensures |r| == |patterns|
    ensures forall k :: 0 <= k < |r| ==> r[k] == Download(id, patterns[k])
  {
    if patterns == [] then [] else [Download(id, patterns[0])] + Logged(id, patterns[1..])
  }

  /** Logging `a` then `b` after `prior` is logging `a + b` after it. */
  lemma LogExtends(prior: seq<Download>, id: string, a: seq<string>, b: seq<string>)
    ensures prior + Logged(id, a) + Logged(id, b) == prior + Logged(id, a + b)
  {
  }

  /** The driver's log after one more identifier: the earlier entries, then the new ones. */
  lemma LogGrows(start: seq<Download>, earlier: seq<Download>, entries: seq<Download>)
    ensures start + earlier + entries == start + (earlier + entries)
  {
  }

  /** What handling a list of identifiers one after another leaves behind. */
  datatype Batch = Batch(outcomes: seq<Outcome>, dirs: set<string>, log: seq<Download>)

  /**
   * The identifiers handled in list order, each by `handle`, which sees
   * whether the identifier's directory is present after the earlier ones.
   */
  function Sequenced(dirs: set<string>, ids: seq<string>, handle: (bool, string) -> Trace): (b: Batch)
    ensures |b.outcomes| == |ids|
  {
    if ids == [] then Batch([], dirs, [])
    else
      var before := Sequenced(dirs, ids[..|ids| - 1], handle);
      var id := ids[|ids| - 1];
      var t := handle(id in before.dirs, id);
      Batch(before.outcomes + [t.outcome],
            if t.outcome.Completed? then before.dirs + {id} else before.dirs - {id},
            before.log + Logged(id, t.patterns))
  }

  /** `get_data` for one identifier, as the archive serves it. */
  function Handler(items: string -> RemoteItem, s: Settings): (bool, string) -> Trace {
    (preexisting: bool, id: string) => Run(preexisting, items(id), s)
  }

  /** The driver's handling of the work list; `items` says what the archive serves for each identifier. */
  function RunAll(dirs: set<string>, ids: seq<string>, items: string -> RemoteItem, s: Settings): (b: Batch)
    ensures |b.outcomes| == |ids|
  {
    Sequenced(dirs, ids, Handler(items, s))
  }

  /**
   * Stage order: nothing is downloaded for a stale directory; otherwise
   * `_files.xml` comes first and `_meta.xml` second, and no caption or
   * content download happens unless the licence gate passed and
   * `_files.xml` was read.
   */
  lemma StageOrder(preexisting: bool, item: RemoteItem, s: Settings)
    ensures Run(preexisting, item, s).patterns == [] <==> preexisting
    ensures !preexisting ==> Run(preexisting, item, s).patterns[0] == FilesXmlPattern
    ensures |Run(preexisting, item, s).patterns| >= 2 ==> Run(preexisting, item, s).patterns[1] == MetaXmlPattern
    ensures |Run(preexisting, item, s).patterns| > 2 ==>
      item.filesXml.Parsed? && (s.checkCc ==> IsCcLicensed(item.metaXml) == Returns(true))
  {
  }

  /** The outcome is the same with or without captions: a caption download never aborts the item. */
  lemma CaptionsNeverDecide(preexisting: bool, item: RemoteItem, s: Settings)
    ensures Run(preexisting, item, s).outcome == Run(preexisting, item, s.(getCaption := !s.getCaption)).outcome
  {
  }

  /** With the licence check off, the `_meta.xml` contents never matter. */
  lemma UncheckedLicenceIgnored(preexisting: bool, item: RemoteItem, s: Settings, meta: Xml<seq<Option<string>>>)
    requires !s.checkCc
    ensures Run(preexisting, item, s) == Run(preexisting, item.(metaXml := meta), s)
  {
    var other := item.(metaXml := meta);
    assert other.raising == item.raising && other.filesXml == item.filesXml;
    if item.filesXml.Parsed? {
      assert Transfer(item.filesXml.doc, item, s) == Transfer(item.filesXml.doc, other, s);
    }
    assert Gates(item, s) == Gates(other, s);
  }

  /**
   * A completed item passed every gate, downloaded the descriptors, the
   * captions tried and then every selected name without a raise, and its
   * selection is the one of the media rules.
   */
  lemma CompletedRun(preexisting: bool, item: RemoteItem, s: Settings)
    requires Run(preexisting, item, s).outcome.Completed?
    ensures !preexisting && item.filesXml.Parsed?
    ensures !s.checkCc || IsCcLicensed(item.metaXml) == Returns(true)
    ensures SelectMedia(item.filesXml.doc, s.media) == Some(Run(preexisting, item, s).outcome.files)
    ensures forall f :: f in Run(preexisting, item, s).outcome.files ==> f !in item.raising
    ensures Run(preexisting, item, s).patterns ==
      [FilesXmlPattern, MetaXmlPattern]
      + (if s.getCaption then CaptionAttempts(CaptionCandidates(item.filesXml.doc), item.raising) else [])
      + Run(preexisting, item, s).outcome.files
  {
    var t := Gates(item, s);
    assert t.outcome.Completed? && Run(preexisting, item, s) == Trace(t.outcome, [FilesXmlPattern, MetaXmlPattern] + t.patterns);
    var manifest := item.filesXml.doc;
    assert t == Transfer(manifest, item, s);
    var captions := if s.getCaption then CaptionAttempts(CaptionCandidates(manifest), item.raising) else [];
    var files := SelectMedia(manifest, s.media).value;
    var content := ContentAttempts(files, item.raising);
    assert !EndsInRaise(content, item.raising) && t == Trace(Completed(files), captions + content);
    assert content == files;
  }

  /** A content download that raises aborts the item, whatever was downloaded before it. */
  lemma RaisingContentAborts(item: RemoteItem, s: Settings, f: string)
    requires FilesXmlPattern !in item.raising && MetaXmlPattern !in item.raising
    requires s.checkCc ==> IsCcLicensed(item.metaXml) == Returns(true)
    requires item.filesXml.Parsed?
    requires SelectMedia(item.filesXml.doc, s.media).Some? && f in SelectMedia(item.filesXml.doc, s.media).value
    requires f in item.raising
    ensures Run(false, item, s).outcome == Raised
  {
  }

  /** Handling one more identifier appends its outcome and touches only its own directory. */
  lemma SequencedLast(dirs: set<string>, ids: seq<string>, handle: (bool, string) -> Trace)
    requires ids != []
    ensures var n := |ids| - 1;
      var before := Sequenced(dirs, ids[..n], handle);
      var b := Sequenced(dirs, ids, handle);
      b.outcomes[..n] == before.outcomes &&
      b.outcomes[n] == handle(ids[n] in before.dirs, ids[n]).outcome &&
      (ids[n] in b.dirs <==> b.outcomes[n].Completed?) &&
      (forall x :: x != ids[n] ==> (x in b.dirs <==> x in before.dirs)) &&
      (forall d :: d in b.log ==> d in before.log || d.identifier == ids[n])
  {
  }

  lemma {:induction false} SequencedIsolation(dirs: set<string>, ids: seq<string>, handle: (bool, string) -> Trace, x: string)
    ensures x !in ids ==> (x in Sequenced(dirs, ids, handle).dirs <==> x in dirs)
    ensures forall d :: d in Sequenced(dirs, ids, handle).log ==> d.identifier in ids
  {
    if ids != [] {
      var init := ids[..|ids| - 1];
      SequencedIsolation(dirs, init, handle, x);
      SequencedLast(dirs, ids, handle);
      assert forall y :: y in init ==> y in ids;
    }
  }

  lemma {:induction false} SequencedDistinct(dirs: set<string>, ids: seq<string>, handle: (bool, string) -> Trace)
    requires forall i, j :: 0 <= i < j < |ids| ==> ids[i] != ids[j]
    ensures forall k :: 0 <= k < |ids| ==>
      Sequenced(dirs, ids, handle).outcomes[k] == handle(ids[k] in dirs, ids[k]).outcome
    ensures forall k :: 0 <= k < |ids| ==>
      (ids[k] in Sequenced(dirs, ids, handle).dirs <==> Sequenced(dirs, ids, handle).outcomes[k].Completed?)
  {
    if ids != [] {
      var n := |ids| - 1;
      var init := ids[..n];
      var id := ids[n];
      SequencedDistinct(dirs, init, handle);
      SequencedIsolation(dirs, init, handle, id);
      SequencedLast(dirs, ids, handle);
      var before := Sequenced(dirs, init, handle);
      var b := Sequenced(dirs, ids, handle);
      forall k | 0 <= k < |ids|
        ensures b.outcomes[k] == handle(ids[k] in dirs, ids[k]).outcome
        ensures ids[k] in b.dirs <==> b.outcomes[k].Completed?
      {
        if k < n {
          assert init[k] == ids[k] && ids[k] != id;
          assert b.outcomes[k] == before.outcomes[k];
          assert ids[k] in b.dirs <==> ids[k] in before.dirs;
        } else {
          assert id !in init;
        }
      }
    }
  }

  /** Handling a list touches only the directories of listed identifiers and downloads only for them. */
  lemma RunAllIsolation(dirs: set<string>, ids: seq<string>, items: string -> RemoteItem, s: Settings, x: string)
    ensures x !in ids ==> (x in RunAll(dirs, ids, items, s).dirs <==> x in dirs)
    ensures forall d :: d in RunAll(dirs, ids, items, s).log ==> d.identifier in ids
  {
    SequencedIsolation(dirs, ids, Handler(items, s), x);
  }

  /**
   * With no identifier listed twice, each one is handled as if alone: its
   * outcome depends only on whether its directory existed beforehand, and
   * its directory is present afterwards exactly when it completed.
   */
  lemma RunAllDistinct(dirs: set<string>, ids: seq<string>, items: string -> RemoteItem, s: Settings)
    requires forall i, j :: 0 <= i < j < |ids| ==> ids[i] != ids[j]
    ensures forall k :: 0 <= k < |ids| ==>
      RunAll(dirs, ids, items, s).outcomes[k] == Run(ids[k] in dirs, items(ids[k]), s).outcome
    ensures forall k :: 0 <= k < |ids| ==>
      (ids[k] in RunAll(dirs, ids, items, s).dirs <==> RunAll(dirs, ids, items, s).outcomes[k].Completed?)
  {
    SequencedDistinct(dirs, ids, Handler(items, s));
  }

  /**
   * An identifier listed twice in a row is never left downloaded: if the
   * first handling completes, the second finds the directory and removes
   * it; otherwise the second repeats the first.
   */
  lemma RepeatedIdentifier(dirs: set<string>, x: string, items: string -> RemoteItem, s: Settings)
    requires x !in dirs
    ensures var o := Run(false, items(x), s).outcome;
      RunAll(dirs, [x, x], items, s).outcomes == [o, if o.Completed? then Stale else o]
    ensures x !in RunAll(dirs, [x, x], items, s).dirs
  {
    var o := Run(false, items(x), s).outcome;
    assert [x, x][..1] == [x];
    assert [x][..0] == [];
    var none := RunAll(dirs, [], items, s);
    assert none == Batch([], dirs, []);
    var first := RunAll(dirs, [x], items, s);
    assert first.outcomes == none.outcomes + [o];
    assert first.outcomes == [o];
    assert x in first.dirs <==> o.Completed?;
    var second := Run(x in first.dirs, items(x), s).outcome;
    assert second == if o.Completed? then Stale else o;
    assert RunAll(dirs, [x, x], items, s).outcomes == first.outcomes + [second];
  }

  /** The directories under the save directory, and every download made so far. */
  class SaveDirectory {
    var dirs: set<string>
    var downloads: seq<Download>

    constructor (existing: set<string>)
      ensures dirs == existing && downloads == []
    {
      dirs := existing;
      downloads := [];
    }

    /** `remove_dir`: the item directory is gone afterwards, nothing else changes. */
    method RemoveDir(id: string)
      modifies this
      ensures dirs == old(dirs) - {id} && downloads == old(downloads)
    {
      dirs := dirs - {id};
    }

    /** One download call: logged, leaves the item directory in place, raises as the archive decides. */
    method Fetch(id: string, pattern: string, item: RemoteItem) returns (raised: bool)
      modifies this
      ensures raised == (pattern in item.raising)
      ensures dirs == old(dirs) + {id}
      ensures downloads == old(downloads) + [Download(id, pattern)]
    {
      downloads := downloads + [Download(id, pattern)];
      dirs := dirs + {id};
      raised := pattern in item.raising;
    }

    /** `download_captions`: candidates by suffix order, then fetch until the first download that does not raise. */
    method DownloadCaptions(id: string, manifest: seq<string>, item: RemoteItem) returns (found: bool)
      requires id in dirs
      modifies this
      ensures found == SomeFetchable(CaptionCandidates(manifest), item.raising)
      ensures downloads == old(downloads) + Logged(id, CaptionAttempts(CaptionCandidates(manifest), item.raising))
      ensures dirs == old(dirs)
    {
      var files := CollectBySuffix(manifest, CaptionSuffixes);
      found := FetchCaptions(id, files, item);
    }

    /** The fetch loop of `download_captions`: return at the first candidate whose download does not raise. */
    method FetchCaptions(id: string, files: seq<string>, item: RemoteItem) returns (found: bool)
      requires id in dirs
      modifies this
      ensures found == EndsInSuccess(CaptionAttempts(files, item.raising), item.raising)
      ensures downloads == old(downloads) + Logged(id, CaptionAttempts(files, item.raising))
      ensures dirs == old(dirs)
    {
      for i := 0 to |files|
        invariant dirs == old(dirs)
        invariant AllRaise(files[..i], item.raising)
        invariant downloads == old(downloads) + Logged(id, files[..i])
      {
        var raised := FetchNext(id, files, i, item, old(downloads));
        if !raised {
          CaptionAttemptsStop(files, item.raising, i);
          assert files[..i + 1][i] == files[i];
          return true;
        }
        assert files[..i + 1] == files[..i] + [files[i]];
      }
      assert files[..|files|] == files;
      CaptionAttemptsExhaust(files, item.raising);
      return false;
    }

    /** The `i`-th download of a loop over `files`: one more pattern logged after `start`. */
    method FetchNext(id: string, files: seq<string>, i: nat, item: RemoteItem, ghost start: seq<Download>)
      returns (raised: bool)
      requires i < |files| && id in dirs
      requires downloads == start + Logged(id, files[..i])
      modifies this
      ensures raised == (files[i] in item.raising)
      ensures downloads == start + Logged(id, files[..i + 1])
      ensures dirs == old(dirs)
    {
      raised := Fetch(id, files[i], item);
      LogExtends(start, id, files[..i], [files[i]]);
      assert files[..i + 1] == files[..i] + [files[i]];
    }

    /** `find_original_file`: the fallback selection; on either empty case the directory is removed. */
    method FindOriginalFile(id: string, manifest: seq<string>, media: string) returns (files: Option<seq<string>>)
      modifies this
      ensures files == FindOriginal(manifest, media)
      ensures dirs == (if files.None? then old(dirs) - {id} else old(dirs))
      ensures downloads == old(downloads)
    {
      var candidates := Unblocked(manifest);
      if |candidates| == 0 {
        RemoveDir(id);
        return None;
      }
      var selected: seq<string> := [];
      if WantsVideo(media) {
        selected := CollectBySuffix(candidates, VideoExtensions);
      }
      if WantsAudio(media) {
        var audio := CollectBySuffix(candidates, AudioExtensions);
        selected := selected + audio;
      }
      assert selected == Fallback(candidates, media);
      if |selected| == 0 {
        RemoveDir(id);
        return None;
      }
      return Some(selected);
    }

    /** The content loop of `get_data`: each selected name in order, stopping at the first that raises. */
    method FetchContent(id: string, files: seq<string>, item: RemoteItem) returns (raised: bool)
      requires id in dirs
      modifies this
      ensures raised == EndsInRaise(ContentAttempts(files, item.raising), item.raising)
      ensures downloads == old(downloads) + Logged(id, ContentAttempts(files, item.raising))
      ensures dirs == old(dirs)
    {
      for i := 0 to |files|
        invariant dirs == old(dirs)
        invariant forall k :: 0 <= k < i ==> files[k] !in item.raising
        invariant downloads == old(downloads) + Logged(id, files[..i])
      {
        raised := FetchNext(id, files, i, item, old(downloads));
        if raised {
          ContentAttemptsStop(files, item.raising, i);
          return;
        }
      }
      assert files[..|files|] == files;
      ContentAttemptsExhaust(files, item.raising);
      return false;
    }

    /**
     * `get_data`: stale directory, metadata, licence, `_files.xml`,
     * captions, selection, content.  Every path that does not complete
     * removes the item directory; no other directory is touched.
     */
    method GetData(id: string, item: RemoteItem, s: Settings) returns (outcome: Outcome)
      modifies this
      ensures outcome == Run(old(id in dirs), item, s).outcome
      ensures downloads == old(downloads) + Logged(id, Run(old(id in dirs), item, s).patterns)
      ensures dirs == if outcome.Completed? then old(dirs) + {id} else old(dirs) - {id}
    {
      if id in dirs {
        RemoveDir(id);
        return Stale;
      }
      var raised := Fetch(id, FilesXmlPattern, item);
      if raised {
        RemoveDir(id);
        return MetadataFetchFailed;
      }
      raised := Fetch(id, MetaXmlPattern, item);
      if raised {
        RemoveDir(id);
        return MetadataFetchFailed;
      }
      ghost var meta := [FilesXmlPattern, MetaXmlPattern];
      assert downloads == old(downloads) + Logged(id, meta);
      if s.checkCc {
        var licence := IsCcLicensed(item.metaXml);
        if licence.Raises? {
          RemoveDir(id);
          return Raised;
        }
        if !licence.value {
          RemoveDir(id);
          return NotCcLicensed;
        }
      }
      if item.filesXml.Absent? {
        RemoveDir(id);
        return MissingFilesXml;
      }
      if item.filesXml.Malformed? {
        RemoveDir(id);
        return Raised;
      }
      var manifest := item.filesXml.doc;
      outcome := DownloadManifestFiles(id, manifest, item, s);
      LogExtends(old(downloads), id, meta, Transfer(manifest, item, s).patterns);
    }

    /** The part of `get_data` after `_files.xml` is read: captions, selection, content. */
    method DownloadManifestFiles(id: string, manifest: seq<string>, item: RemoteItem, s: Settings) returns (outcome: Outcome)
      requires id in dirs
      modifies this
      ensures outcome == Transfer(manifest, item, s).outcome
      ensures downloads == old(downloads) + Logged(id, Transfer(manifest, item, s).patterns)
      ensures dirs == if outcome.Completed? then old(dirs) else old(dirs) - {id}
    {
      ghost var captions: seq<string> := [];
      if s.getCaption {
        var _ := DownloadCaptions(id, manifest, item);
        captions := CaptionAttempts(CaptionCandidates(manifest), item.raising);
      } else {
        assert downloads == old(downloads) + Logged(id, []);
      }
      var files := DirectMatch(manifest, s.media);
      if |files| == 0 {
        var found := FindOriginalFile(id, manifest, s.media);
        if found.None? {
          assert Transfer(manifest, item, s) == Trace(NoMedia, captions);
          return NoMedia;
        }
        files := found.value;
      }
      assert SelectMedia(manifest, s.media) == Some(files);
      ghost var content := ContentAttempts(files, item.raising);
      ghost var mid := downloads;
      assert mid == old(downloads) + Logged(id, captions);
      var raised := FetchContent(id, files, item);
      LogExtends(old(downloads), id, captions, content);
      assert Transfer(manifest, item, s).patterns == captions + content;
      if raised {
        RemoveDir(id);
        return Raised;
      }
      return Completed(files);
    }

    /** The driver loop: `get_data` for each identifier, one after another. */
    method GetAll(ids: seq<string>, items: string -> RemoteItem, s: Settings) returns (outcomes: seq<Outcome>)
      modifies this
      ensures outcomes == RunAll(old(dirs), ids, items, s).outcomes
      ensures dirs == RunAll(old(dirs), ids, items, s).dirs
      ensures downloads == old(downloads) + RunAll(old(dirs), ids, items, s).log
    {
      outcomes := [];
      for i := 0 to |ids|
        invariant outcomes == RunAll(old(dirs), ids[..i], items, s).outcomes
        invariant dirs == RunAll(old(dirs), ids[..i], items, s).dirs
        invariant downloads == old(downloads) + RunAll(old(dirs), ids[..i], items, s).log
      {
        assert ids[..i + 1][..i] == ids[..i];
        ghost var before := RunAll(old(dirs), ids[..i], items, s);
        var outcome := GetData(ids[i], items(ids[i]), s);
        outcomes := outcomes + [outcome];
        LogGrows(old(downloads), before.log, Logged(ids[i], Run(ids[i] in before.dirs, items(ids[i]), s).patterns));
      }
      assert ids[..|ids|] == ids;
    }

    /**
     * `download_data`: resolve the work list, then handle every identifier
     * on it; `listFiles` maps the paths that exist to their contents.
     */
    method DownloadData(idListFile: Option<string>, saveDirectory: Option<string>, doneIdsFile: Option<string>,
                        listFiles: map<string, ListFile>, items: string -> RemoteItem, s: Settings)
      returns (plan: Plan, outcomes: seq<Outcome>)
      modifies this
      ensures plan == ResolveWorkList(idListFile, saveDirectory, doneIdsFile, listFiles)
      ensures outcomes == RunAll(old(dirs), if plan.Process? then plan.ids else [], items, s).outcomes
      ensures dirs == RunAll(old(dirs), if plan.Process? then plan.ids else [], items, s).dirs
      ensures downloads == old(downloads) + RunAll(old(dirs), if plan.Process? then plan.ids else [], items, s).log
    {
      if idListFile.None? || saveDirectory.None? || idListFile.value !in listFiles {
        assert old(downloads) + [] == old(downloads);
        return NothingToDo, [];
      }
      var list := listFiles[idListFile.value];
      var ids: seq<string>;
      if EndsWith(idListFile.value, ".txt") {
        if doneIdsFile.Some? && doneIdsFile.value !in listFiles {
          assert old(downloads) + [] == old(downloads);
          return ReadFailed, [];
        }
        var done := if doneIdsFile.Some? then Some(listFiles[doneIdsFile.value].lines) else None;
        var remaining := PrepareListOfIds(list.lines, done);
        ids := NonEmpty(remaining);
      } else {
        if list.records.None? {
          assert old(downloads) + [] == old(downloads);
          return ReadFailed, [];
        }
        var read := ReadRecordIds(list.records.value);
        if read.None? {
          assert old(downloads) + [] == old(downloads);
          return ReadFailed, [];
        }
        ids := NonEmpty(read.value);
      }
      plan := Process(ids);
      outcomes := GetAll(ids, items, s);
    }
  }

  /** The JSON-lines branch: append each record's `identifier`; a record without one raises. */
  method ReadRecordIds(records: seq<IdField>) returns (ids: Option<seq<string>>)
    ensures ids == RecordIds(records)
  {
    var acc: seq<string> := [];
    for i := 0 to |records|
      invariant RecordIds(records[..i]) == Some(acc)
    {
      assert records[..i + 1][..i] == records[..i];
      match records[i]
      case Missing =>
        MissingIdentifierFails(records);
        return None;
      case Null =>
      case Id(x) =>
        acc := acc + [x];
    }
    assert records[..|records|] == records;
    return Some(acc);
  }
}
