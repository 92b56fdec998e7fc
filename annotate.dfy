/**
 * The relevance annotation script: each transcript is cut into parts, each
 * part is put to the chat model until it answers or the rate limit has been
 * hit too often, and the file is judged relevant when at least half of its
 * parts were answered with a "yes".  With a ground-truth set, false
 * positives and false negatives are counted.
 */
module AnnotateEvaluate {
  import opened Options
  import opened Text

  const KnownModels: set<string> := {"gpt-3.5-turbo", "gpt-3.5-turbo-16k", "gpt-4", "gpt-4-32k"}

  /** `get_limit`: the context size of a model and the prompt budget kept below it; unknown models have none. */
  function GetLimit(modelName: string): (r: Option<(nat, nat)>)
    ensures r.Some? <==> modelName in KnownModels
    ensures r.Some? ==> 0 < r.value.1 < r.value.0
  {
    if modelName == "gpt-3.5-turbo" then Some((4096, 4060))
    else if modelName == "gpt-3.5-turbo-16k" then Some((16384, 16350))
    else if modelName == "gpt-4" then Some((8192, 8160))
    else if modelName == "gpt-4-32k" then Some((32768, 32730))
    else None
  }

  /** One call to the chat model: a reply, or an exception with its message. */
  datatype Attempt = Reply(message: string) | Failure(error: string)

  /** How putting one part to the model ended. */
  datatype PartResult = Answered(message: string) | Abandoned | Unresolved

  predicate IsOverloaded(error: string) {
    Contains(error, "overloaded with other requests")
  }

  predicate IsRateLimit(error: string) {
    Contains(error, "6ms") || Contains(error, "exception Rate limit reached")
  }

  /** The only errors that count towards giving up: rate limits that are not also overload messages. */
  predicate CountsAsRetry(a: Attempt) {
    a.Failure? && !IsOverloaded(a.error) && IsRateLimit(a.error)
  }

  /**
   * The retry loop over the calls `attempts`, with `tryCount` rate-limit
   * errors seen so far: the first reply answers; a counted error that
   * takes the count past 10 abandons the part; any other error retries.
   * Running out of attempts leaves the part unresolved.
   */
  function Ask(attempts: seq<Attempt>, tryCount: nat): PartResult {
    if attempts == [] then Unresolved
    else match attempts[0]
      case Reply(m) => Answered(m)
      case Failure(e) =>
        var count := if CountsAsRetry(attempts[0]) then tryCount + 1 else tryCount;
        if count > 10 then Abandoned else Ask(attempts[1..], count)
  }

  /** The calls up to, not including, the first reply. */
  function BeforeReply(attempts: seq<Attempt>): (r: seq<Attempt>)
    ensures |r| <= |attempts| && r == attempts[..|r|]
    ensures forall i :: 0 <= i < |r| ==> r[i].Failure?
    ensures |r| < |attempts| ==> attempts[|r|].Reply?
  {
    if attempts == [] || attempts[0].Reply? then [] else [attempts[0]] + BeforeReply(attempts[1..])
  }

  function Retries(attempts: seq<Attempt>): nat {
    if attempts == [] then 0 else (if CountsAsRetry(attempts[0]) then 1 else 0) + Retries(attempts[1..])
  }

  /**
   * The retry rule in full: a part is abandoned exactly when more than 10
   * rate-limit errors come before the first reply, and answered by the
   * first reply exactly when there is one and at most 10 such errors
   * precede it.
   */
  lemma {:induction false} AskCharacterized(attempts: seq<Attempt>, tryCount: nat)
    requires tryCount <= 10
    ensures Ask(attempts, tryCount) == Abandoned <==> tryCount + Retries(BeforeReply(attempts)) > 10
    ensures Ask(attempts, tryCount).Answered? <==>
      |BeforeReply(attempts)| < |attempts| && tryCount + Retries(BeforeReply(attempts)) <= 10
    ensures Ask(attempts, tryCount).Answered? ==>
      Ask(attempts, tryCount).message == attempts[|BeforeReply(attempts)|].message
  {
    if attempts != [] && attempts[0].Failure? {
      var count := if CountsAsRetry(attempts[0]) then tryCount + 1 else tryCount;
      var before := BeforeReply(attempts);
      assert before == [attempts[0]] + BeforeReply(attempts[1..]);
      assert before[1..] == BeforeReply(attempts[1..]);
      assert Retries(before) == (if CountsAsRetry(attempts[0]) then 1 else 0) + Retries(BeforeReply(attempts[1..]));
      if count <= 10 {
        AskCharacterized(attempts[1..], count);
      } else {
        RetriesAtLeastFirst(attempts);
      }
    }
  }

  lemma RetriesAtLeastFirst(attempts: seq<Attempt>)
    requires attempts != [] && attempts[0].Failure?
    ensures Retries(BeforeReply(attempts)) >= (if CountsAsRetry(attempts[0]) then 1 else 0)
  {
    assert BeforeReply(attempts) == [attempts[0]] + BeforeReply(attempts[1..]);
  }

  /** Without rate-limit errors a part is never abandoned. */
  lemma NoRateLimitNeverAbandoned(attempts: seq<Attempt>)
    requires forall i :: 0 <= i < |attempts| ==> !CountsAsRetry(attempts[i])
    ensures Ask(attempts, 0) != Abandoned
  {
    AskCharacterized(attempts, 0);
    RetriesNone(BeforeReply(attempts));
  }

  lemma {:induction false} RetriesNone(attempts: seq<Attempt>)
    requires forall i :: 0 <= i < |attempts| ==> !CountsAsRetry(attempts[i])
    ensures Retries(attempts) == 0
  {
    if attempts != [] {
      RetriesNone(attempts[1..]);
    }
  }

  /** The `while flag` loop for one part. */
  method QueryPart(attempts: seq<Attempt>) returns (result: PartResult)
    ensures result == Ask(attempts, 0)
  {
    var tryCount := 0;
    var j := 0;
    while j < |attempts|
      invariant j <= |attempts| && tryCount <= 10
      invariant Ask(attempts, 0) == Ask(attempts[j..], tryCount)
    {
      assert attempts[j..][1..] == attempts[j + 1..];
      match attempts[j]
      case Reply(m) =>
        return Answered(m);
      case Failure(e) =>
        if IsOverloaded(e) {
        } else if IsRateLimit(e) {
          tryCount := tryCount + 1;
        }
        if tryCount > 10 {
          return Abandoned;
        }
      j := j + 1;
    }
    return Unresolved;
  }

  /** A reply counts as relevant when its lower-cased text contains "yes", whatever else it says. */
  predicate SaysYes(message: string) {
    Contains(Lower(message), "yes")
  }

  function Results(parts: seq<seq<Attempt>>): (r: seq<PartResult>)
    ensures |r| == |parts| && forall i :: 0 <= i < |parts| ==> r[i] == Ask(parts[i], 0)
  {
    seq(|parts|, i requires 0 <= i < |parts| => Ask(parts[i], 0))
  }

  function Answers(results: seq<PartResult>): (n: nat)
    ensures n <= |results|
  {
    if results == [] then 0
    else Answers(results[..|results| - 1]) + (if results[|results| - 1].Answered? then 1 else 0)
  }

  function YesAnswers(results: seq<PartResult>): (n: nat)
    ensures n <= Answers(results)
  {
    if results == [] then 0
    else YesAnswers(results[..|results| - 1])
         + (if results[|results| - 1].Answered? && SaysYes(results[|results| - 1].message) then 1 else 0)
  }

  /** The part loop of one file: how many parts said yes, and how many were answered at all. */
  method TallyParts(parts: seq<seq<Attempt>>) returns (relevanceCount: nat, totalSuccess: nat)
    ensures relevanceCount == YesAnswers(Results(parts)) && totalSuccess == Answers(Results(parts))
  {
    relevanceCount := 0;
    totalSuccess := 0;
    ghost var results := Results(parts);
    for ip := 0 to |parts|
      invariant relevanceCount == YesAnswers(results[..ip]) && totalSuccess == Answers(results[..ip])
    {
      assert results[..ip + 1][..ip] == results[..ip];
      var result := QueryPart(parts[ip]);
      if result.Answered? {
        totalSuccess := totalSuccess + 1;
        if SaysYes(result.message) {
          relevanceCount := relevanceCount + 1;
        }
      }
    }
    assert results[..|parts|] == results;
  }

  /** The verdict threshold in integers: yes answers make up at least half of all parts, answered or not. */
  predicate RelevantByCount(yes: nat, parts: nat) {
    2 * yes >= parts
  }

  /** The script divides by the number of parts and compares with 0.5; the integer test agrees. */
  lemma RatioThreshold(yes: nat, parts: nat)
    requires parts > 0
    ensures (yes as real) / (parts as real) >= 0.5 <==> RelevantByCount(yes, parts)
  {
    var ratio := (yes as real) / (parts as real);
    assert ratio * (parts as real) == yes as real;
    if ratio >= 0.5 {
      assert ratio * (parts as real) >= 0.5 * (parts as real);
    } else {
      assert ratio * (parts as real) < 0.5 * (parts as real);
    }
  }

  /** A transcript: its file name and, for each part, the model calls made for it. */
  datatype Transcript = Transcript(name: string, parts: seq<seq<Attempt>>)

  datatype Verdict = Relevant | Irrelevant

  /** A line of the result file: a file's verdict with its yes count over its part count, or the closing summary. */
  datatype OutputLine = Judged(file: string, verdict: Verdict, yes: nat, parts: nat) | Summary(fps: nat, fns: nat, total: int)

  /** The state of `main`'s counters and the lines written so far. */
  datatype Report = Report(lines: seq<OutputLine>, fps: nat, fns: nat, total: int)

  /** Every part of every file gets an answer or is abandoned within the calls given. */
  predicate Resolved(files: seq<Transcript>) {
    forall i, j :: 0 <= i < |files| && 0 <= j < |files[i].parts| ==> Ask(files[i].parts[j], 0) != Unresolved
  }

  /**
   * The file loop of `main`, with `groundTruth` the listing of the
   * relevant-files directory.  The script only reaches the loop once that
   * listing succeeded, so its `relevant_files != ""` tests always pass there.
   */
  function Tally(files: seq<Transcript>, groundTruth: set<string>): (r: Report)
    ensures r.total <= |files|
  {
    if files == [] then Report([], 0, 0, 0)
    else
      var before := Tally(files[..|files| - 1], groundTruth);
      var f := files[|files| - 1];
      var results := Results(f.parts);
      var yes := YesAnswers(results);
      if Answers(results) == 0 then before
      else
        var relevant := RelevantByCount(yes, |f.parts|);
        var line := Judged(f.name, if relevant then Relevant else Irrelevant, yes, |f.parts|);
        Report(before.lines + [line],
               if relevant && f.name !in groundTruth then before.fps + 1 else before.fps,
               if !relevant && f.name in groundTruth then before.fns + 1 else before.fns,
               before.total + 1)
  }
  function FalsePositives(lines: seq<OutputLine>, groundTruth: set<string>): nat {
    if lines == [] then 0
    else
      var l := lines[|lines| - 1];
      FalsePositives(lines[..|lines| - 1], groundTruth)
      + (if l.Judged? && l.verdict == Relevant && l.file !in groundTruth then 1 else 0)
  }

  function FalseNegatives(lines: seq<OutputLine>, groundTruth: set<string>): nat {
    if lines == [] then 0
    else
      var l := lines[|lines| - 1];
      FalseNegatives(lines[..|lines| - 1], groundTruth)
      + (if l.Judged? && l.verdict == Irrelevant && l.file in groundTruth then 1 else 0)
  }

  /** Files none of whose parts got an answer: they are dropped from the total and get no line. */
  function Unanswered(files: seq<Transcript>): (n: nat)
    ensures n <= |files|
  {
    if files == [] then 0
    else Unanswered(files[..|files| - 1]) + (if Answers(Results(files[|files| - 1].parts)) == 0 then 1 else 0)
  }

  /**
   * The counters of the file loop: the total is the number of files less
   * those without any answer, and each judged file has one line, with a
   * positive part count (so the ratio is defined) and a yes count no larger
   * than it.  The false positives are the relevant verdicts outside the
   * ground truth and the false negatives the irrelevant ones inside it.
   */
  lemma {:induction false} TallyCounts(files: seq<Transcript>, groundTruth: set<string>)
    ensures Tally(files, groundTruth).total == |files| - Unanswered(files)
    ensures Tally(files, groundTruth).total == |Tally(files, groundTruth).lines|
    ensures forall l :: l in Tally(files, groundTruth).lines ==> l.Judged? && 0 < l.parts && l.yes <= l.parts
    ensures Tally(files, groundTruth).fps == FalsePositives(Tally(files, groundTruth).lines, groundTruth)
    ensures Tally(files, groundTruth).fns == FalseNegatives(Tally(files, groundTruth).lines, groundTruth)
  {
    if files != [] {
      var init := files[..|files| - 1];
      TallyCounts(init, groundTruth);
      var before := Tally(init, groundTruth);
      var f := files[|files| - 1];
      var results := Results(f.parts);
      if Answers(results) != 0 {
        var lines := Tally(files, groundTruth).lines;
        assert lines[..|lines| - 1] == before.lines;
      }
    }
  }

  /** Every verdict is either a false positive, a false negative or right, so the errors never exceed the files judged. */
  lemma {:induction false} MistakesBounded(lines: seq<OutputLine>, groundTruth: set<string>)
    ensures FalsePositives(lines, groundTruth) + FalseNegatives(lines, groundTruth) <= |lines|
  {
    if lines != [] {
      MistakesBounded(lines[..|lines| - 1], groundTruth);
    }
  }

  /**
   * What `main` writes.  `listing` is what listing the relevant-files
   * directory gives, `None` when that raises.  The listing happens before
   * the result file is opened, and listing the empty path always raises, so
   * with the default `relevant_files` nothing is written (`None`).
   * Otherwise the result holds one line per judged file, then the summary.
   */
  function Evaluation(files: seq<Transcript>, listing: Option<set<string>>, relevantFiles: string): Option<Report> {
    if relevantFiles == "" || listing.None? then None
    else
      var r := Tally(files, listing.value);
      Some(r.(lines := r.lines + [Summary(r.fps, r.fns, r.total)]))
  }

  /** `main` without the chunking and the file handling: the listing, the counters, the verdicts and the summary. */
  method Evaluate(files: seq<Transcript>, listing: Option<set<string>>, relevantFiles: string) returns (report: Option<Report>)
    requires Resolved(files)
    ensures report == Evaluation(files, listing, relevantFiles)
  {
    if relevantFiles == "" || listing.None? {
      return None;
    }
    var groundTruth := listing.value;
    var fps: nat := 0;
    var fns: nat := 0;
    var total: int := |files|;
    var lines: seq<OutputLine> := [];
    for idx := 0 to |files|
      invariant Report(lines, fps, fns, total - (|files| - idx)) == Tally(files[..idx], groundTruth)
    {
      assert files[..idx + 1][..idx] == files[..idx];
      var file := files[idx];
      var relevanceCount, totalSuccess := TallyParts(file.parts);
      if totalSuccess == 0 {
        total := total - 1;
        continue;
      }
      var relevant := 2 * relevanceCount >= |file.parts|;
      if relevant {
        if file.name !in groundTruth {
          fps := fps + 1;
        }
      } else {
        if file.name in groundTruth {
          fns := fns + 1;
        }
      }
      lines := lines + [Judged(file.name, if relevant then Relevant else Irrelevant, relevanceCount, |file.parts|)];
    }
    assert files[..|files|] == files;
    lines := lines + [Summary(fps, fns, total)];
    return Some(Report(lines, fps, fns, total));
  }

  /**
   * The result file: nothing is written exactly when the relevant-files
   * path is empty or cannot be listed; otherwise a summary closes it, every
   * line before it is a verdict, the total is the number of verdicts and
   * the mistakes never exceed it.
   */
  lemma EvaluationSummary(files: seq<Transcript>, listing: Option<set<string>>, relevantFiles: string)
    ensures Evaluation(files, listing, relevantFiles).None? <==> relevantFiles == "" || listing.None?
    ensures Evaluation(files, listing, relevantFiles).Some? ==>
      var r := Evaluation(files, listing, relevantFiles).value;
      r.lines != [] && r.lines[|r.lines| - 1] == Summary(r.fps, r.fns, r.total) &&
      r.total == |r.lines| - 1 &&
      (forall k :: 0 <= k < |r.lines| - 1 ==> r.lines[k].Judged?) &&
      r.fps + r.fns <= r.total
  {
    if relevantFiles != "" && listing.Some? {
      var t := Tally(files, listing.value);
      TallyCounts(files, listing.value);
      MistakesBounded(t.lines, listing.value);
      var r := Evaluation(files, listing, relevantFiles).value;
      forall k | 0 <= k < |r.lines| - 1
        ensures r.lines[k].Judged?
      {
        assert r.lines[k] == t.lines[k] && t.lines[k] in t.lines;
      }
    }
  }
}
