/**
 * Reading the task number out of a log message in `loadFiles` of the performance tool:
 * the integer between the first `task ` and the first ` from job` of a "Processing" line,
 * or between the first `Task ` and the first ` processed` of a "processed" line. A
 * missing marker or a piece that is not an integer raises a ValueError.
 */
module PerfLog {
  import opened Wrappers
  import opened PyText

  datatype LogError = ValueError

  /** Whether pat occurs in s at position i. */
  predicate At(s: string, i: nat, pat: string)
  {
    i + |pat| <= |s| && s[i..i + |pat|] == pat
  }

  /** `s.index(pat)`: the first position where pat occurs; None where Python raises. */
  function Find(s: string, pat: string): (r: Option<nat>)
    ensures r.Some? ==> r.value + |pat| <= |s|
    decreases |s|
  {
    if At(s, 0, pat) then Some(0)
    else if |s| <= |pat| then None
    else
      match Find(s[1..], pat)
      case None => None
      case Some(i) => Some(i + 1)
  }

  /** Find gives the first occurrence, and None only when there is none. */
  lemma {:induction false} FindIsFirst(s: string, pat: string)
    ensures Find(s, pat).Some? ==>
      At(s, Find(s, pat).value, pat) && forall j :: 0 <= j < Find(s, pat).value ==> !At(s, j, pat)
    ensures Find(s, pat).None? ==> forall j :: 0 <= j <= |s| ==> !At(s, j, pat)
    decreases |s|
  {
    if !At(s, 0, pat) && |s| > |pat| {
      var t := s[1..];
      FindIsFirst(t, pat);
      forall j | 1 <= j <= |s|
        ensures At(s, j, pat) == At(t, j - 1, pat)
      {
        AtOfTail(s, j, pat);
      }
    }
  }

  /** An occurrence in s past its first character is one in s[1..]. */
  lemma AtOfTail(s: string, j: nat, pat: string)
    requires 1 <= j <= |s|
    ensures At(s, j, pat) == At(s[1..], j - 1, pat)
  {
    if j + |pat| <= |s| {
      var m := |pat|;
      var t := s[1..];
      assert s[j..j + m] == t[j - 1..j - 1 + m];
    }
  }

  /** `int(msg[msg.index(open) + len(open) : msg.index(close)])`. */
  function Between(msg: string, open: string, close: string): Result<int, LogError>
  {
    match Cut(msg, open, close)
    case None => Err(ValueError)
    case Some(piece) => IntOf(piece)
  }

  /** `msg[msg.index(open) + len(open) : msg.index(close)]`, None where an index raises. */
  function Cut(msg: string, open: string, close: string): Option<string>
  {
    var start := Find(msg, open);
    var end := Find(msg, close);
    if start.None? || end.None? then None
    else
      var from := start.value + |open|;
      Some(if end.value <= from then [] else msg[from..end.value])
  }

  /** `int(piece)`, with the ValueError it raises. */
  function IntOf(piece: string): Result<int, LogError>
  {
    match ParseInt(piece)
    case None => Err(ValueError)
    case Some(n) => Ok(n)
  }

  /** The task number of a "Processing" line. */
  function ProcessingTask(msg: string): Result<int, LogError>
  {
    Between(msg, "task ", " from job")
  }

  /** The task number of a "processed" line. */
  function ProcessedTask(msg: string): Result<int, LogError>
  {
    Between(msg, "Task ", " processed")
  }

  /** The message the task manager logs when it starts a task. */
  function ProcessingMessage(task: int, job: int): string
  {
    "Processing" + (" " + ("task" + (" " + (ShowInt(task) + (" from job" + (" " + (ShowInt(job) + "...")))))))
  }

  /** The message the task manager logs when it finishes a task. */
  function ProcessedMessage(task: int): string
  {
    "Task" + (" " + (ShowInt(task) + (" processed" + ".")))
  }

  /** pat first occurs in s at position i. */
  predicate FoundAt(s: string, pat: string, i: nat)
  {
    Find(s, pat).Some? && Find(s, pat).value == i
  }

  /** A prefix without the pattern's first character only moves the first occurrence along. */
  lemma {:induction false} FindAfter(pre: string, s: string, pat: string)
    requires pat != [] && pat[0] !in pre
    ensures Find(pre + s, pat) == if Find(s, pat).None? then None else Some(|pre| + Find(s, pat).value)
  {
    if pre != [] {
      var t := pre + s;
      assert t[1..] == pre[1..] + s;
      assert !At(t, 0, pat) by {
        assert t[0] == pre[0];
      }
      FindAfter(pre[1..], s, pat);
    } else {
      assert pre + s == s;
    }
  }

  /** The first occurrence moved along by a prefix without the pattern's first character. */
  lemma FindShift(pre: string, s: string, pat: string, i: nat)
    requires pat != [] && pat[0] !in pre && FoundAt(s, pat, i)
    ensures FoundAt(pre + s, pat, |pre| + i)
  {
    FindAfter(pre, s, pat);
  }

  /** A position where the pattern does not start only moves the first occurrence along. */
  lemma FindSkip(c: char, s: string, pat: string)
    requires !At([c] + s, 0, pat) && |s| >= |pat|
    ensures Find([c] + s, pat) == if Find(s, pat).None? then None else Some(1 + Find(s, pat).value)
  {
    assert ([c] + s)[1..] == s;
  }

  /** The same, for a first occurrence that is known. */
  lemma FindStep(c: char, s: string, pat: string, i: nat)
    requires !At([c] + s, 0, pat) && |s| >= |pat| && FoundAt(s, pat, i)
    ensures FoundAt([c] + s, pat, 1 + i)
  {
    FindSkip(c, s, pat);
  }

  /** The pattern does not start a string that differs from it at position k. */
  lemma NotAtByChar(s: string, pat: string, k: nat)
    requires k < |pat| && k < |s| && s[k] != pat[k]
    ensures !At(s, 0, pat)
  {
  }

  /** A space followed by text whose first character differs from the pattern's second. */
  lemma NotAtSpace(t: string, pat: string)
    requires t != [] && |pat| > 1 && t[0] != pat[1]
    ensures !At(" " + t, 0, pat)
  {
    assert (" " + t)[1] == t[0];
    NotAtByChar(" " + t, pat, 1);
  }

  /** The first occurrence at the very start. */
  lemma FindHere(pat: string, s: string)
    ensures FoundAt(pat + s, pat, 0)
  {
    assert (pat + s)[0..|pat|] == pat;
  }

  /** A printed number holds no space. */
  lemma NoSpaceIn(n: int)
    ensures ' ' !in ShowInt(n) && ShowInt(n) != []
  {
    ShowIntPlain(n);
    assert forall i :: 0 <= i < |ShowInt(n)| ==> ShowInt(n)[i] != ' ';
  }

  /** Between, once both markers are found and the piece between them is read. */
  lemma CutIs(msg: string, open: string, close: string, a: nat, b: nat)
    requires FoundAt(msg, open, a) && FoundAt(msg, close, b) && a + |open| < b
    ensures Cut(msg, open, close) == Some(msg[a + |open|..b])
  {
  }

  lemma BetweenIs(msg: string, open: string, close: string, a: nat, b: nat, n: int)
    requires FoundAt(msg, open, a) && FoundAt(msg, close, b)
    requires a + |open| < b && IntOf(msg[a + |open|..b]) == Ok(n)
    ensures Between(msg, open, close) == Ok(n)
  {
    CutIs(msg, open, close, a, b);
  }

  /** ` from job` first occurs right after the task number. */
  lemma FromJobAt(n: string, rest: string)
    requires ' ' !in n && n != [] && n[0] != 'f'
    ensures FoundAt("Processing" + (" " + ("task" + (" " + (n + (" from job" + rest))))), " from job", 16 + |n|)
  {
    var pat := " from job";
    var s0 := pat + rest;
    var s1 := n + s0;
    var s2 := "task" + (" " + s1);
    NotAtSpace(s1, pat);
    NotAtSpace(s2, pat);
    FindHere(pat, rest);
    FindShift(n, s0, pat, 0);
    FindStep(' ', s1, pat, |n|);
    FindShift("task", " " + s1, pat, 1 + |n|);
    FindStep(' ', s2, pat, 5 + |n|);
    FindShift("Processing", " " + s2, pat, 6 + |n|);
  }

  /** `task ` first occurs after `Processing `. */
  lemma TaskMarkerAt(n: string, rest: string)
    ensures FoundAt("Processing" + (" " + ("task" + (" " + (n + (" from job" + rest))))), "task ", 11)
  {
    var s := "task" + (" " + (n + (" from job" + rest)));
    assert "task" + " " + (n + (" from job" + rest)) == s;
    assert "task" + " " == "task ";
    FindHere("task ", n + (" from job" + rest));
    FindShift("Processing ", s, "task ", 0);
    assert "Processing" + " " + s == "Processing" + (" " + s);
    assert "Processing" + " " == "Processing ";
  }

  /** ` processed` first occurs right after the task number. */
  lemma ProcessedAt(n: string)
    requires ' ' !in n && n != [] && n[0] != 'p'
    ensures FoundAt("Task" + (" " + (n + (" processed" + "."))), " processed", 5 + |n|)
  {
    var pat := " processed";
    var s0 := pat + ".";
    var s1 := n + s0;
    NotAtSpace(s1, pat);
    FindHere(pat, ".");
    FindShift(n, s0, pat, 0);
    FindStep(' ', s1, pat, |n|);
    FindShift("Task", " " + s1, pat, 1 + |n|);
  }

  /** `Task ` occurs at the start. */
  lemma CapitalTaskAt(n: string)
    ensures FoundAt("Task" + (" " + (n + (" processed" + "."))), "Task ", 0)
  {
    FindHere("Task ", n + (" processed" + "."));
    assert "Task" + " " == "Task ";
  }

  /** A "Processing" message gives back its task number. */
  lemma ProcessingRoundTrip(task: int, job: int)
    ensures ProcessingTask(ProcessingMessage(task, job)) == Ok(task)
  {
    var n := ShowInt(task);
    var rest := " " + (ShowInt(job) + "...");
    var msg := ProcessingMessage(task, job);
    NoSpaceIn(task);
    ShowIntPlain(task);
    TaskMarkerAt(n, rest);
    FromJobAt(n, rest);
    assert msg[16..16 + |n|] == n;
    ParseShowInt(task);
    BetweenIs(msg, "task ", " from job", 11, 16 + |n|, task);
  }

  /** A "processed" message gives back its task number. */
  lemma ProcessedRoundTrip(task: int)
    ensures ProcessedTask(ProcessedMessage(task)) == Ok(task)
  {
    var n := ShowInt(task);
    var msg := ProcessedMessage(task);
    NoSpaceIn(task);
    ShowIntPlain(task);
    CapitalTaskAt(n);
    ProcessedAt(n);
    assert msg[5..5 + |n|] == n;
    ParseShowInt(task);
    BetweenIs(msg, "Task ", " processed", 0, 5 + |n|, task);
  }

  /** A line without the opening marker raises. */
  lemma NoMarkerRaises(msg: string, open: string, close: string)
    requires forall j :: 0 <= j <= |msg| ==> !At(msg, j, open)
    ensures Between(msg, open, close) == Err(ValueError)
  {
    FindIsFirst(msg, open);
  }
}
