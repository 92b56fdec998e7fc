/**
 * The search script: the advanced-search query it sends to the archive, and
 * the licence filter that appends newly found Creative Commons items to the
 * save file without repeating an identifier within one run.
 */
module ArchiveSearch {
  import opened Options
  import opened Text
  import opened WorkList
  import opened LicenseGate

  /** The content terms, searched in title, description, creator and subject. */
  const ContentTerms: seq<string> := [
    "podcast", "conversation", "discussion", "debate", "interview", "talk",
    "talks", "talk show", "guest talk", "dialog", "dialogue", "tedtalk"]

  /** The community keywords, in the order of the three groups (the misspelt "americal" included). */
  const Keywords: seq<string> := [
    "latin american", "latinx american", "latino american", "latina american",
    "mexican american", "cuban american", "costa rican american",
    "puerto rican american", "brazilian american", "colombian american",
    "asian american", "indian american", "korean american", "chinese american",
    "japanese american", "south asian american", "middle eastern american",
    "vietnamese american", "indonesian american", "malaysian americal",
    "african american", "black american", "nigerian american", "sudanese american",
    "egyptian american", "libyan american", "algerian american"]

  const QueryHead := "(mediatype:movies OR mediatype:audio) AND ("
  const QueryMiddle := ") AND ("
  const QueryTail := ") AND (NOT access-restricted-item:TRUE)"
  const Separator := " OR "

  /** One field clause: `term` in title, description and creator, `subject` in subject. */
  function Clause(term: string, subject: string): string {
    "(title:(" + term + ") OR description:(" + term + ") OR creator:(" + term + ") OR subject:(" + subject + "))"
  }

  /** The clauses joined by the separator, with none before the first. */
  function Joined(clauses: seq<string>): (r: string)
    ensures clauses != [] ==> StartsWith(r, clauses[0])
    ensures |clauses| == 1 ==> r == clauses[0]
  {
    if clauses == [] then ""
    else if |clauses| == 1 then clauses[0]
    else
      var init := Joined(clauses[..|clauses| - 1]);
      assert StartsWith(init, clauses[0]);
      assert (init + Separator + clauses[|clauses| - 1])[..|clauses[0]|] == init[..|clauses[0]|];
      init + Separator + clauses[|clauses| - 1]
  }

  /** One clause per content term, the term standing in all four fields. */
  function ContentClauses(terms: seq<string>): (r: seq<string>)
    ensures |r| == |terms| && forall i :: 0 <= i < |terms| ==> r[i] == Clause(terms[i], terms[i])
  {
    seq(|terms|, i requires 0 <= i < |terms| => Clause(terms[i], terms[i]))
  }

  /**
   * One clause per keyword; the subject field carries `subject`, which the
   * script takes from the leftover variable of the content loop.
   */
  function KeywordClauses(keywords: seq<string>, subject: string): (r: seq<string>)
    ensures |r| == |keywords| && forall i :: 0 <= i < |keywords| ==> r[i] == Clause(keywords[i], subject)
  {
    seq(|keywords|, i requires 0 <= i < |keywords| => Clause(keywords[i], subject))
  }

  /** The query for the given term lists; the content list is never empty, so its last term exists. */
  function Query(content: seq<string>, keywords: seq<string>): string
    requires content != []
  {
    QueryHead + Joined(ContentClauses(content)) + QueryMiddle
    + Joined(KeywordClauses(keywords, content[|content| - 1])) + QueryTail
  }

  /** Appending one more clause adds the separator and the clause. */
  lemma JoinedStep(clauses: seq<string>, i: nat)
    requires 0 < i < |clauses|
    ensures Joined(clauses[..i + 1]) == Joined(clauses[..i]) + Separator + clauses[i]
  {
    assert clauses[..i + 1][..i] == clauses[..i];
  }

  /** `get_query`'s two accumulation loops, over the term lists. */
  method BuildQuery(content: seq<string>, keywords: seq<string>) returns (query: string)
    requires content != []
    ensures query == Query(content, keywords)
  {
    var c;
    query, c := AppendContentClauses(QueryHead, content);
    query := query + QueryMiddle;
    query := AppendKeywordClauses(query, keywords, c);
    query := query + QueryTail;
  }

  /** The content loop of `get_query`; its loop variable outlives the loop holding the last term. */
  method AppendContentClauses(prefix: string, content: seq<string>) returns (query: string, c: string)
    requires content != []
    ensures query == prefix + Joined(ContentClauses(content))
    ensures c == content[|content| - 1]
  {
    query := prefix;
    c := "";
    var clauses := ContentClauses(content);
    for i := 0 to |content|
      invariant query == prefix + Joined(clauses[..i])
      invariant i > 0 ==> c == content[i - 1]
    {
      c := content[i];
      query := AppendClause(query, prefix, clauses, i, Clause(c, c));
    }
    assert clauses[..|content|] == clauses;
  }

  /** One step of either loop: the separator unless first, then the `i`-th clause. */
  method AppendClause(query: string, ghost prefix: string, ghost clauses: seq<string>, i: nat, clause: string)
    returns (next: string)
    requires i < |clauses| && clauses[i] == clause
    requires query == prefix + Joined(clauses[..i])
    ensures next == prefix + Joined(clauses[..i + 1])
  {
    if i > 0 {
      JoinedStep(clauses, i);
      next := query + Separator + clause;
      assert next == prefix + (Joined(clauses[..i]) + Separator + clause);
    } else {
      assert clauses[..1] == [clause];
      next := query + clause;
    }
  }

  /** The keyword loop of `get_query`: each keyword's clause, the separator before all but the first. */
  method AppendKeywordClauses(prefix: string, keywords: seq<string>, subject: string) returns (query: string)
    ensures query == prefix + Joined(KeywordClauses(keywords, subject))
  {
    query := prefix;
    var clauses := KeywordClauses(keywords, subject);
    for i := 0 to |keywords|
      invariant query == prefix + Joined(clauses[..i])
    {
      query := AppendClause(query, prefix, clauses, i, Clause(keywords[i], subject));
    }
    assert clauses[..|keywords|] == clauses;
  }

  /** `get_query`. */
  method GetQuery() returns (query: string)
    ensures query == Query(ContentTerms, Keywords)
  {
    query := BuildQuery(ContentTerms, Keywords);
  }

  /** The query opens with the media-type restriction and closes with the access restriction. */
  lemma {:induction false} QueryFrame(content: seq<string>, keywords: seq<string>)
    requires content != []
    ensures StartsWith(Query(content, keywords), QueryHead)
    ensures EndsWith(Query(content, keywords), QueryTail)
  {
    var first := QueryHead + Joined(ContentClauses(content));
    var second := first + QueryMiddle;
    var third := second + Joined(KeywordClauses(keywords, content[|content| - 1]));
    assert Query(content, keywords) == third + QueryTail;
    Extend(QueryHead, Joined(ContentClauses(content)));
    Extend(first, QueryMiddle);
    Extend(second, Joined(KeywordClauses(keywords, content[|content| - 1])));
    Extend(third, QueryTail);
  }

  /** A concatenation ends in its second part, and keeps every prefix of its first part. */
  lemma Extend(a: string, b: string)
    ensures EndsWith(a + b, b)
    ensures forall p :: StartsWith(a, p) ==> StartsWith(a + b, p)
    ensures StartsWith(a + b, a)
  {
    assert (a + b)[|a|..] == b;
    forall p | StartsWith(a, p)
      ensures StartsWith(a + b, p)
    {
      assert (a + b)[..|p|] == a[..|p|];
    }
    assert (a + b)[..|a|] == a;
  }

  /** Every keyword clause asks for the last content term, `tedtalk`, in the subject field. */
  lemma KeywordSubjectIsTedtalk()
    ensures ContentTerms[|ContentTerms| - 1] == "tedtalk"
    ensures forall i :: 0 <= i < |Keywords| ==>
      KeywordClauses(Keywords, ContentTerms[|ContentTerms| - 1])[i] == Clause(Keywords[i], "tedtalk")
  {
  }

  /** A clause that differs from the term-in-all-fields clause exactly by its subject. */
  lemma SubjectMismatch(term: string, subject: string)
    requires |subject| != |term|
    ensures Clause(term, subject) != Clause(term, term)
  {
    assert |Clause(term, subject)| == |Clause(term, "")| + |subject|;
    assert |Clause(term, term)| == |Clause(term, "")| + |term|;
  }

  /** As written, no keyword clause of the script's query asks for its own keyword in the subject field. */
  lemma KeywordSubjectNotKeyword()
    ensures forall i :: 0 <= i < |Keywords| ==>
      KeywordClauses(Keywords, ContentTerms[|ContentTerms| - 1])[i] != ContentClauses(Keywords)[i]
  {
    forall i | 0 <= i < |Keywords|
      ensures KeywordClauses(Keywords, ContentTerms[|ContentTerms| - 1])[i] != ContentClauses(Keywords)[i]
    {
      assert |Keywords[i]| >= 14;
      SubjectMismatch(Keywords[i], "tedtalk");
    }
  }

  /** The query with each keyword in all four fields of its clause, as the content terms are. */
  function IntendedQuery(content: seq<string>, keywords: seq<string>): string {
    QueryHead + Joined(ContentClauses(content)) + QueryMiddle + Joined(ContentClauses(keywords)) + QueryTail
  }

  /** Every clause of a joined list occurs in it. */
  lemma {:induction false} JoinedContains(clauses: seq<string>, i: nat)
    requires i < |clauses|
    ensures Contains(Joined(clauses), clauses[i])
    decreases |clauses|
  {
    var n := |clauses|;
    if n == 1 {
      ContainsPart("", clauses[0], "");
      assert "" + clauses[0] + "" == clauses[0];
    } else {
      var init := clauses[..n - 1];
      assert Joined(clauses) == Joined(init) + Separator + clauses[n - 1];
      if i == n - 1 {
        ContainsPart(Joined(init) + Separator, clauses[n - 1], "");
        assert Joined(init) + Separator + clauses[n - 1] + "" == Joined(clauses);
      } else {
        JoinedContains(init, i);
        ContainsPart("", Joined(init), Separator + clauses[n - 1]);
        assert "" + Joined(init) + (Separator + clauses[n - 1]) == Joined(clauses);
        ContainsTrans(Joined(clauses), Joined(init), clauses[i]);
      }
    }
  }

  /** The corrected query asks for every keyword in the subject field. */
  lemma IntendedKeywordSubjects(content: seq<string>, keywords: seq<string>, i: nat)
    requires i < |keywords|
    ensures Contains(IntendedQuery(content, keywords), "subject:(" + keywords[i] + "))")
  {
    var k := keywords[i];
    var clauses := ContentClauses(keywords);
    var lead := "(title:(" + k + ") OR description:(" + k + ") OR creator:(" + k + ") OR ";
    assert clauses[i] == lead + ("subject:(" + k + "))") + "";
    ContainsPart(lead, "subject:(" + k + "))", "");
    JoinedContains(clauses, i);
    ContainsTrans(Joined(clauses), clauses[i], "subject:(" + k + "))");
    var q := IntendedQuery(content, keywords);
    var head := QueryHead + Joined(ContentClauses(content)) + QueryMiddle;
    assert q == head + Joined(clauses) + QueryTail;
    ContainsPart(head, Joined(clauses), QueryTail);
    ContainsTrans(q, Joined(clauses), "subject:(" + k + "))");
  }

  /** A metadata record: its identifier, and its `licenseurl` when it has one. */
  datatype Metadata = Metadata(identifier: string, licenseurl: Option<string>)

  /** The filter of the append loop: the check is on, and the licence URL names Creative Commons. */
  predicate Accepts(checkCc: bool, m: Metadata) {
    checkCc && m.licenseurl.Some? && MentionsCreativeCommons(m.licenseurl.value)
  }

  /** The save file's lines as the script reads them back; a file that cannot be read counts as empty. */
  function KnownLines(prior: Option<seq<string>>): seq<string> {
    if prior.None? then [] else DoneIds(prior.value)
  }

  function Ids(ms: seq<Metadata>): (r: seq<string>)
    ensures |r| == |ms| && forall i :: 0 <= i < |ms| ==> r[i] == ms[i].identifier
  {
    seq(|ms|, i requires 0 <= i < |ms| => ms[i].identifier)
  }

  /** The line written for an accepted record: identifier, a blank, the licence URL, a newline. */
  function Line(m: Metadata): string
    requires m.licenseurl.Some?
  {
    m.identifier + " " + m.licenseurl.value + "\n"
  }

  function Lines(ms: seq<Metadata>): (r: seq<string>)
    requires forall i :: 0 <= i < |ms| ==> ms[i].licenseurl.Some?
    ensures |r| == |ms| && forall i :: 0 <= i < |ms| ==> r[i] == Line(ms[i])
  {
    seq(|ms|, i requires 0 <= i < |ms| && ms[i].licenseurl.Some? => Line(ms[i]))
  }

  /** The list the loop ends with and the records it appended, in order. */
  datatype Filtered = Filtered(unique: seq<string>, added: seq<Metadata>)

  /** The append loop over `records`, starting from the `known` lines. */
  function Scan(known: seq<string>, records: seq<Metadata>, checkCc: bool): (r: Filtered)
    ensures r.unique == known + Ids(r.added)
    ensures forall m :: m in r.added ==> m in records && Accepts(checkCc, m)
    ensures forall i :: 0 <= i < |r.added| ==> r.added[i].licenseurl.Some?
  {
    if records == [] then Filtered(known, [])
    else
      var f := Scan(known, records[..|records| - 1], checkCc);
      var m := records[|records| - 1];
      assert forall x :: x in records[..|records| - 1] ==> x in records;
      if Accepts(checkCc, m) && m.identifier !in f.unique
      then Filtered(f.unique + [m.identifier], f.added + [m])
      else f
  }

  /** The filter loop of `archive_search`: the save file's lines, then each accepted record not yet listed. */
  method AppendAccepted(prior: Option<seq<string>>, records: seq<Metadata>, checkCc: bool)
    returns (unique: seq<string>, written: seq<string>)
    ensures unique == Scan(KnownLines(prior), records, checkCc).unique
    ensures written == Lines(Scan(KnownLines(prior), records, checkCc).added)
  {
    unique := KnownLines(prior);
    written := [];
    for i := 0 to |records|
      invariant unique == Scan(KnownLines(prior), records[..i], checkCc).unique
      invariant written == Lines(Scan(KnownLines(prior), records[..i], checkCc).added)
    {
      assert records[..i + 1][..i] == records[..i];
      var m := records[i];
      if checkCc && m.licenseurl.Some? && MentionsCreativeCommons(m.licenseurl.value) {
        if m.identifier !in unique {
          unique := unique + [m.identifier];
          written := written + [m.identifier + " " + m.licenseurl.value + "\n"];
        }
      }
    }
    assert records[..|records|] == records;
  }

  predicate DistinctIds(ms: seq<Metadata>) {
    forall i, j :: 0 <= i < j < |ms| ==> ms[i].identifier != ms[j].identifier
  }

  /** The appended identifiers are new: none was known, and none is appended twice. */
  lemma {:induction false} ScanFresh(known: seq<string>, records: seq<Metadata>, checkCc: bool)
    ensures forall m :: m in Scan(known, records, checkCc).added ==> m.identifier !in known
    ensures DistinctIds(Scan(known, records, checkCc).added)
  {
    if records != [] {
      var init := records[..|records| - 1];
      ScanFresh(known, init, checkCc);
      var f := Scan(known, init, checkCc);
      var m := records[|records| - 1];
      if Accepts(checkCc, m) && m.identifier !in f.unique {
        var added := f.added + [m];
        forall i, j | 0 <= i < j < |added|
          ensures added[i].identifier != added[j].identifier
        {
          assert added[i] == f.added[i];
          assert f.added[i].identifier == Ids(f.added)[i] == f.unique[|known| + i];
          if j == |f.added| {
            assert f.unique[|known| + i] in f.unique;
          } else {
            assert added[j] == f.added[j];
            assert DistinctIds(f.added);
          }
        }
      }
    }
  }

  /** Every accepted record's identifier is listed when the loop ends. */
  lemma {:induction false} ScanComplete(known: seq<string>, records: seq<Metadata>, checkCc: bool)
    ensures forall m :: m in records && Accepts(checkCc, m) ==> m.identifier in Scan(known, records, checkCc).unique
  {
    if records != [] {
      var init := records[..|records| - 1];
      ScanComplete(known, init, checkCc);
      var f := Scan(known, init, checkCc);
      var r := Scan(known, records, checkCc);
      assert forall x :: x in f.unique ==> x in r.unique;
      assert records == init + [records[|records| - 1]];
    }
  }

  /**
   * The loop goes through the records in order: scanning `a + b` scans `a`,
   * then `b` from the list `a` left behind, and appends in that order.
   */
  lemma {:induction false} ScanAppend(known: seq<string>, a: seq<Metadata>, b: seq<Metadata>, checkCc: bool)
    ensures Scan(known, a + b, checkCc).unique == Scan(Scan(known, a, checkCc).unique, b, checkCc).unique
    ensures Scan(known, a + b, checkCc).added ==
      Scan(known, a, checkCc).added + Scan(Scan(known, a, checkCc).unique, b, checkCc).added
    decreases |b|
  {
    if b != [] {
      var init := b[..|b| - 1];
      assert (a + b)[..|a + b| - 1] == a + init;
      assert (a + b)[|a + b| - 1] == b[|b| - 1];
      ScanAppend(known, a, init, checkCc);
    } else {
      assert a + b == a;
    }
  }

  /**
   * An accepted record whose identifier is neither known nor carried by an
   * earlier accepted record is appended, so its own licence URL is the one
   * written for that identifier.
   */
  lemma ScanFirstAccepted(known: seq<string>, records: seq<Metadata>, checkCc: bool, i: nat)
    requires i < |records| && Accepts(checkCc, records[i]) && records[i].identifier !in known
    requires forall j :: 0 <= j < i && Accepts(checkCc, records[j]) ==> records[j].identifier != records[i].identifier
    ensures records[i] in Scan(known, records, checkCc).added
  {
    ScanTakes(known, records, checkCc, i);
    ScanAppend(known, records[..i + 1], records[i + 1..], checkCc);
    assert records[..i + 1] + records[i + 1..] == records;
    var upto := Scan(known, records[..i + 1], checkCc).added;
    assert records[i] == upto[|upto| - 1] && upto[|upto| - 1] in upto;
  }

  /** The step of `ScanFirstAccepted` at the record itself. */
  lemma ScanTakes(known: seq<string>, records: seq<Metadata>, checkCc: bool, i: nat)
    requires i < |records| && Accepts(checkCc, records[i]) && records[i].identifier !in known
    requires forall j :: 0 <= j < i && Accepts(checkCc, records[j]) ==> records[j].identifier != records[i].identifier
    ensures Scan(known, records[..i + 1], checkCc).added == Scan(known, records[..i], checkCc).added + [records[i]]
  {
    var m := records[i];
    var before := Scan(known, records[..i], checkCc);
    forall k | 0 <= k < |before.added|
      ensures Ids(before.added)[k] != m.identifier
    {
      var x := before.added[k];
      assert x in before.added;
      var j :| 0 <= j < i && records[..i][j] == x;
    }
    assert records[..i + 1][..i] == records[..i];
  }

  /** With the licence check off, nothing is appended and nothing is written. */
  lemma {:induction false} UncheckedAddsNothing(known: seq<string>, records: seq<Metadata>)
    ensures Scan(known, records, false) == Filtered(known, [])
  {
    if records != [] {
      UncheckedAddsNothing(known, records[..|records| - 1]);
    }
  }

  /** Known lines that are no record's identifier change nothing about what is appended. */
  lemma {:induction false} ForeignKnownIgnored(known: seq<string>, records: seq<Metadata>, checkCc: bool)
    requires forall m :: m in records ==> m.identifier !in known
    ensures Scan(known, records, checkCc).added == Scan([], records, checkCc).added
  {
    if records != [] {
      var init := records[..|records| - 1];
      assert forall m :: m in init ==> m in records;
      ForeignKnownIgnored(known, init, checkCc);
    }
  }

  /**
   * Each written line holds a blank after the identifier, so when the
   * identifiers have no blank, a run over the same records after a first
   * run writes every line again: the file's lines are never identifiers.
   */
  lemma ResumeRewrites(records: seq<Metadata>, checkCc: bool)
    requires forall m :: m in records ==> ' ' !in m.identifier
    ensures var first := Scan([], records, checkCc).added;
      Scan(KnownLines(Some(Lines(first))), records, checkCc).added == first
  {
    var first := Scan([], records, checkCc).added;
    var lines := Lines(first);
    DoneIdsMembers(lines);
    forall m | m in records
      ensures m.identifier !in KnownLines(Some(lines))
    {
      if m.identifier in DoneIds(lines) {
        var l :| l in lines && DropNewlines(l) == m.identifier;
        var k :| 0 <= k < |lines| && lines[k] == l;
        WrittenLineHasBlank(first, k);
      }
    }
    ForeignKnownIgnored(KnownLines(Some(lines)), records, checkCc);
  }

  /** A written line keeps the blank after its identifier when read back. */
  lemma WrittenLineHasBlank(ms: seq<Metadata>, k: nat)
    requires k < |ms| && forall i :: 0 <= i < |ms| ==> ms[i].licenseurl.Some?
    ensures ' ' in DropNewlines(Lines(ms)[k])
  {
    var l := Lines(ms)[k];
    var n := |ms[k].identifier|;
    assert l == ms[k].identifier + " " + ms[k].licenseurl.value + "\n";
    assert l[n] == ' ';
    DropNewlinesKeeps(l, n);
  }
}
