/**
 * Work-list resolution of the download script: which identifiers are still
 * to be fetched, given the lines of the "all identifiers" list and, when
 * there is one, the lines of the "done identifiers" list.
 */
module WorkList {
  import opened Options
  import opened Text

  /**
   * The identifiers of the "all" list: each line loses its newlines, a line
   * that is empty at that point is dropped, and the rest are stripped.  A
   * line of blanks is not empty before stripping, so it survives as "".
   */
  function AllIds(lines: seq<string>): (ids: seq<string>)
    ensures |ids| <= |lines|
    ensures forall x :: x in ids ==> '\n' !in x
  {
    if lines == [] then []
    else
      var rest := AllIds(lines[..|lines| - 1]);
      var line := DropNewlines(lines[|lines| - 1]);
      StripKeepsNoNewline(line);
      if line == "" then rest else rest + [Strip(line)]
  }

  /** A line read into the "all" list yields `x`: it is not empty once its newlines are removed, and strips to `x`. */
  predicate Yields(line: string, x: string) {
    DropNewlines(line) != "" && Strip(DropNewlines(line)) == x
  }

  /** Each identifier comes from one line: that line, newlines removed and then stripped, where removal left something. */
  lemma {:induction false} AllIdsMembers(lines: seq<string>)
    ensures forall x :: x in AllIds(lines) <==> exists l :: l in lines && Yields(l, x)
  {
    if lines != [] {
      var init := lines[..|lines| - 1];
      var last := lines[|lines| - 1];
      AllIdsMembers(init);
      AllIdsStep(lines);
      assert lines == init + [last];
      forall x
        ensures x in AllIds(lines) <==> exists l :: l in lines && Yields(l, x)
      {
        if x in AllIds(init) {
          var l :| l in init && Yields(l, x);
          assert l in lines;
        }
        if exists l :: l in lines && Yields(l, x) {
          var l :| l in lines && Yields(l, x);
          if l != last {
            assert l in init;
          }
        }
      }
    }
  }

  /** The last line adds its identifier, if it yields one, to those of the lines before it. */
  lemma AllIdsStep(lines: seq<string>)
    requires lines != []
    ensures forall x :: x in AllIds(lines) <==> x in AllIds(lines[..|lines| - 1]) || Yields(lines[|lines| - 1], x)
  {
  }

  /** Lines are read one after another: the identifiers of two lists are those of each, in order. */
  lemma {:induction false} AllIdsAppend(a: seq<string>, b: seq<string>)
    ensures AllIds(a + b) == AllIds(a) + AllIds(b)
    decreases |b|
  {
    if b != [] {
      var init := b[..|b| - 1];
      assert (a + b)[..|a + b| - 1] == a + init;
      AllIdsAppend(a, init);
    } else {
      assert a + b == a;
    }
  }

  /** A line of blanks is not empty when tested, so it yields the empty identifier. */
  lemma BlankLineKept(line: string)
    requires DropNewlines(line) != "" && AllSpace(DropNewlines(line))
    ensures AllIds([line]) == [""]
  {
    StripBlank(DropNewlines(line));
    assert [line][..0] == [];
  }

  /** For instance, a line of two blanks. */
  lemma BlankLineExample()
    ensures AllIds(["  \n"]) == [""]
  {
    assert DropNewlines("  \n") == "  ";
    BlankLineKept("  \n");
  }

  /** The identifiers of the "done" list: newlines removed and empty lines dropped, but not stripped. */
  function DoneIds(lines: seq<string>): (ids: seq<string>)
    ensures "" !in ids
  {
    if lines == [] then []
    else
      var rest := DoneIds(lines[..|lines| - 1]);
      var line := DropNewlines(lines[|lines| - 1]);
      if line == "" then rest else rest + [line]
  }

  /** The done list is optional; without one nothing counts as done. */
  function DoneSet(done: Option<seq<string>>): seq<string> {
    if done.None? then [] else DoneIds(done.value)
  }

  /** The identifiers of `all` that are not in `done`, in their order, repeats kept. */
  function Unfinished(all: seq<string>, done: seq<string>): seq<string> {
    if all == [] then []
    else
      var rest := Unfinished(all[..|all| - 1], done);
      var x := all[|all| - 1];
      if x in done then rest else rest + [x]
  }

  /** The identifiers that `prepare_list_of_ids` returns. */
  function Prepared(allLines: seq<string>, doneLines: Option<seq<string>>): seq<string> {
    Unfinished(AllIds(allLines), DoneSet(doneLines))
  }

  /** `prepare_list_of_ids`: the comprehensions, then the append loop over the "all" identifiers. */
  method PrepareListOfIds(allLines: seq<string>, doneLines: Option<seq<string>>) returns (remaining: seq<string>)
    ensures remaining == Prepared(allLines, doneLines)
    ensures forall x :: x in remaining <==> x in AllIds(allLines) && x !in DoneSet(doneLines)
  {
    var all := AllIds(allLines);
    var done := DoneSet(doneLines);
    remaining := [];
    for i := 0 to |all|
      invariant remaining == Unfinished(all[..i], done)
    {
      assert all[..i + 1][..i] == all[..i];
      if all[i] !in done {
        remaining := remaining + [all[i]];
      }
    }
    assert all[..|all|] == all;
    UnfinishedMembers(all, done);
  }

  /** Membership: an identifier remains exactly when it is listed and not done. */
  lemma {:induction false} UnfinishedMembers(all: seq<string>, done: seq<string>)
    ensures forall x :: x in Unfinished(all, done) <==> x in all && x !in done
  {
    if all != [] {
      var init := all[..|all| - 1];
      UnfinishedMembers(init, done);
      assert all == init + [all[|all| - 1]];
    }
  }

  /** Repeats are kept: each remaining identifier occurs as often as in the "all" list. */
  lemma {:induction false} UnfinishedCounts(all: seq<string>, done: seq<string>, x: string)
    ensures multiset(Unfinished(all, done))[x] == if x in done then 0 else multiset(all)[x]
  {
    if all != [] {
      var init := all[..|all| - 1];
      UnfinishedCounts(init, done, x);
      assert all == init + [all[|all| - 1]];
    }
  }

  /** Order is kept: resolving a concatenation is resolving each part, in order. */
  lemma {:induction false} UnfinishedAppend(a: seq<string>, b: seq<string>, done: seq<string>)
    ensures Unfinished(a + b, done) == Unfinished(a, done) + Unfinished(b, done)
    decreases |b|
  {
    if b != [] {
      var init := b[..|b| - 1];
      assert (a + b)[..|a + b| - 1] == a + init;
      UnfinishedAppend(a, init, done);
    } else {
      assert a + b == a;
    }
  }

  /** The done list is looked up by exact string: only its newlines were removed. */
  lemma {:induction false} DoneIdsMembers(lines: seq<string>)
    ensures forall x :: x in DoneIds(lines) <==> x != "" && exists l :: l in lines && DropNewlines(l) == x
  {
    if lines != [] {
      var init := lines[..|lines| - 1];
      var last := lines[|lines| - 1];
      DoneIdsMembers(init);
      assert lines == init + [last];
      forall x
        ensures x in DoneIds(lines) <==> x != "" && exists l :: l in lines && DropNewlines(l) == x
      {
        if x != "" && exists l :: l in lines && DropNewlines(l) == x {
          var l :| l in lines && DropNewlines(l) == x;
          if l != last {
            assert l in init;
          }
        }
      }
    }
  }

  lemma {:induction false} DoneIdsAppend(a: seq<string>, b: seq<string>)
    ensures DoneIds(a + b) == DoneIds(a) + DoneIds(b)
    decreases |b|
  {
    if b != [] {
      var init := b[..|b| - 1];
      assert (a + b)[..|a + b| - 1] == a + init;
      DoneIdsAppend(a, init);
    } else {
      assert a + b == a;
    }
  }

  /**
   * Resuming with the identifiers just resolved appended to the done list
   * leaves nothing but empty identifiers: a blank "all" line becomes "",
   * which the done list can never hold.
   */
  lemma ResumeLeavesOnlyBlanks(allLines: seq<string>, doneLines: seq<string>)
    ensures forall x :: x in Prepared(allLines, Some(doneLines + Prepared(allLines, Some(doneLines)))) ==> x == ""
  {
    var all := AllIds(allLines);
    var first := Prepared(allLines, Some(doneLines));
    UnfinishedMembers(all, DoneIds(doneLines));
    DoneIdsAppend(doneLines, first);
    DoneIdsMembers(first);
    UnfinishedMembers(all, DoneIds(doneLines + first));
    forall x | x in first
      ensures DropNewlines(x) == x
    {
    }
  }

  /** `[m for m in ids if not (m == "" or m is None)]`, the filter of the download driver. */
  function NonEmpty(ids: seq<string>): (r: seq<string>)
    ensures "" !in r
    ensures forall x :: x != "" ==> (x in r <==> x in ids)
    ensures forall x :: multiset(r)[x] == if x == "" then 0 else multiset(ids)[x]
  {
    if ids == [] then []
    else
      var rest := NonEmpty(ids[..|ids| - 1]);
      assert ids == ids[..|ids| - 1] + [ids[|ids| - 1]];
      if ids[|ids| - 1] == "" then rest else rest + [ids[|ids| - 1]]
  }

  /** The filter keeps the order of what it keeps. */
  lemma {:induction false} NonEmptyAppend(a: seq<string>, b: seq<string>)
    ensures NonEmpty(a + b) == NonEmpty(a) + NonEmpty(b)
    decreases |b|
  {
    if b != [] {
      var init := b[..|b| - 1];
      assert (a + b)[..|a + b| - 1] == a + init;
      NonEmptyAppend(a, init);
    } else {
      assert a + b == a;
    }
  }

  /** The driver's plan for a `.txt` list: each non-empty identifier not done, as often as it is listed. */
  lemma PlanCounts(allLines: seq<string>, doneLines: Option<seq<string>>, x: string)
    ensures multiset(NonEmpty(Prepared(allLines, doneLines)))[x] ==
      if x == "" || x in DoneSet(doneLines) then 0 else multiset(AllIds(allLines))[x]
  {
    UnfinishedCounts(AllIds(allLines), DoneSet(doneLines), x);
  }

  /** After the driver's filter, resuming with the resolved identifiers marked done resolves to nothing. */
  lemma ResumeIsEmpty(allLines: seq<string>, doneLines: seq<string>)
    ensures NonEmpty(Prepared(allLines, Some(doneLines + Prepared(allLines, Some(doneLines))))) == []
  {
    var again := NonEmpty(Prepared(allLines, Some(doneLines + Prepared(allLines, Some(doneLines)))));
    ResumeLeavesOnlyBlanks(allLines, doneLines);
    var ids := Prepared(allLines, Some(doneLines + Prepared(allLines, Some(doneLines))));
    assert forall i :: 0 <= i < |ids| ==> ids[i] in ids;
    NonEmptyOfBlanks(Prepared(allLines, Some(doneLines + Prepared(allLines, Some(doneLines)))));
  }

  lemma {:induction false} NonEmptyOfBlanks(ids: seq<string>)
    requires forall i :: 0 <= i < |ids| ==> ids[i] == ""
    ensures NonEmpty(ids) == []
  {
    if ids != [] {
      NonEmptyOfBlanks(ids[..|ids| - 1]);
    }
  }

  /** The value of a record's `identifier` key, or why there is none. */
  datatype IdField = Missing | Null | Id(text: string)

  /**
   * An input file: its text lines, and, when it is a gzip-compressed
   * JSON-lines file, the `identifier` fields of its records.
   */
  datatype ListFile = ListFile(lines: seq<string>, records: Option<seq<IdField>>)

  /** What the driver does before fetching: nothing, fail while reading, or fetch these identifiers. */
  datatype Plan = NothingToDo | ReadFailed | Process(ids: seq<string>)

  function RecordIds(records: seq<IdField>): Option<seq<string>> {
    if records == [] then Some([])
    else match RecordIds(records[..|records| - 1])
      case None => None
      case Some(ids) =>
        match records[|records| - 1]
        case Missing => None
        case Null => Some(ids)
        case Id(s) => Some(ids + [s])
  }

  /**
   * The work list of `download_data`, with existing files as a map from
   * path to contents.  A `.txt` list goes through `prepare_list_of_ids`;
   * any other list is read as gzip JSON lines, with the done list ignored.
   */
  function ResolveWorkList(idListFile: Option<string>, saveDirectory: Option<string>,
                           doneIdsFile: Option<string>, files: map<string, ListFile>): (p: Plan)
    ensures p.Process? ==> "" !in p.ids
    ensures p == NothingToDo <==> idListFile.None? || saveDirectory.None? || idListFile.value !in files
  {
    if idListFile.None? || saveDirectory.None? || idListFile.value !in files then NothingToDo
    else
      var list := files[idListFile.value];
      if EndsWith(idListFile.value, ".txt") then
        if doneIdsFile.Some? && doneIdsFile.value !in files then ReadFailed
        else
          var done := if doneIdsFile.Some? then Some(files[doneIdsFile.value].lines) else None;
          Process(NonEmpty(Prepared(list.lines, done)))
      else if list.records.None? then ReadFailed
      else match RecordIds(list.records.value)
        case None => ReadFailed
        case Some(ids) => Process(NonEmpty(ids))
  }

  /** A gzip list ignores the done list: every non-empty identifier of its records is fetched. */
  lemma {:induction false} RecordIdsMembers(records: seq<IdField>)
    requires RecordIds(records).Some?
    ensures forall x :: x in RecordIds(records).value <==> Id(x) in records
    ensures Missing !in records
  {
    if records != [] {
      var init := records[..|records| - 1];
      RecordIdsMembers(init);
      assert records == init + [records[|records| - 1]];
    }
  }

  /** A record without an `identifier` key makes reading fail. */
  lemma {:induction false} MissingIdentifierFails(records: seq<IdField>)
    requires Missing in records
    ensures RecordIds(records).None?
  {
    if records != [] {
      var init := records[..|records| - 1];
      assert records == init + [records[|records| - 1]];
      if Missing in init {
        MissingIdentifierFails(init);
      }
    }
  }
}
