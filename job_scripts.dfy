/**
 * The two string helpers of the job scripts: `make_uid`, which names a job manager after
 * its host and process id, and `str2bool`, which reads a command-line flag.
 */
module JobScripts {
  import opened Wrappers
  import opened PyText

  /** The characters `make_uid` keeps from the hostname. */
  predicate Kept(c: char)
  {
    c == ' ' || c == '-' || ('a' <= c <= 'z') || ('A' <= c <= 'Z') || ('0' <= c <= '9')
  }

  /** The hostname with every character that is not Kept dropped. */
  function FilterHost(h: string): string
    decreases |h|
  {
    if h == [] then [] else (if Kept(h[0]) then [h[0]] else []) + FilterHost(h[1..])
  }

  /** Only kept characters remain. */
  lemma {:induction false} FilterOnlyKept(h: string)
    ensures forall i :: 0 <= i < |FilterHost(h)| ==> Kept(FilterHost(h)[i])
    decreases |h|
  {
    if h != [] {
      FilterOnlyKept(h[1..]);
    }
  }

  /** Every kept character stays as often as it occurs; every other one is gone. */
  lemma {:induction false} FilterCounts(h: string, c: char)
    ensures multiset(FilterHost(h))[c] == if Kept(c) then multiset(h)[c] else 0
    decreases |h|
  {
    if h != [] {
      FilterCounts(h[1..], c);
      assert h == [h[0]] + h[1..];
    }
  }

  /** Filtering works piece by piece, so the kept characters keep their order. */
  lemma {:induction false} FilterAppend(a: string, b: string)
    ensures FilterHost(a + b) == FilterHost(a) + FilterHost(b)
    decreases |a|
  {
    if a == [] {
      assert a + b == b;
    } else {
      var head := if Kept(a[0]) then [a[0]] else [];
      assert (a + b)[0] == a[0];
      assert (a + b)[1..] == a[1..] + b;
      FilterAppend(a[1..], b);
      assert FilterHost(a + b) == head + (FilterHost(a[1..]) + FilterHost(b));
      assert FilterHost(a) == head + FilterHost(a[1..]);
    }
  }

  /** One character is kept or dropped. */
  lemma FilterOne(c: char)
    ensures FilterHost([c]) == if Kept(c) then [c] else []
  {
    assert [c][1..] == [];
  }

  /** A hostname made only of kept characters is left as it is. */
  lemma {:induction false} FilterKeepsPlain(h: string)
    requires forall i :: 0 <= i < |h| ==> Kept(h[i])
    ensures FilterHost(h) == h
    decreases |h|
  {
    if h != [] {
      FilterKeepsPlain(h[1..]);
    }
  }

  /** Filtering twice is filtering once. */
  lemma FilterIdempotent(h: string)
    ensures FilterHost(FilterHost(h)) == FilterHost(h)
  {
    FilterOnlyKept(h);
    FilterKeepsPlain(FilterHost(h));
  }

  /** `if not pid: pid = os.getpid()`: a missing or zero pid stands for the current process. */
  function EffectivePid(pid: Option<int>, osPid: int): int
  {
    if pid.None? || pid.value == 0 then osPid else pid.value
  }

  /** `make_uid(pid)`: the filtered hostname, a dash, and the process id. */
  function MakeUid(pid: Option<int>, osPid: int, hostname: string): string
  {
    FilterHost(hostname) + "-" + ShowInt(EffectivePid(pid, osPid))
  }

  /** `u.rsplit('-', 1)`: the text before and after the last dash, if there is one. */
  function SplitLastDash(u: string): Option<(string, string)>
    decreases |u|
  {
    if u == [] then None
    else if u[|u| - 1] == '-' then Some((u[..|u| - 1], []))
    else
      match SplitLastDash(u[..|u| - 1])
      case None => None
      case Some((before, after)) => Some((before, after + [u[|u| - 1]]))
  }

  /** The last dash of `a + "-" + b` is the one between them when b holds none. */
  lemma {:induction false} SplitAtDash(a: string, b: string)
    requires forall i :: 0 <= i < |b| ==> b[i] != '-'
    ensures SplitLastDash(a + "-" + b) == Some((a, b))
    decreases |b|
  {
    var u := a + "-" + b;
    if b == [] {
      assert u[..|u| - 1] == a;
    } else {
      var b' := b[..|b| - 1];
      assert u[..|u| - 1] == a + "-" + b';
      SplitAtDash(a, b');
      assert b' + [b[|b| - 1]] == b;
    }
  }

  /** A uid holds only characters a hostname may keep. */
  lemma UidPlain(pid: Option<int>, osPid: int, hostname: string)
    ensures forall i :: 0 <= i < |MakeUid(pid, osPid, hostname)| ==> Kept(MakeUid(pid, osPid, hostname)[i])
  {
    var p := EffectivePid(pid, osPid);
    FilterOnlyKept(hostname);
    ShowIntPlain(p);
    var u := MakeUid(pid, osPid, hostname);
    var f := FilterHost(hostname);
    forall i | 0 <= i < |u|
      ensures Kept(u[i])
    {
      if i < |f| {
        assert u[i] == f[i];
      } else if i > |f| {
        assert u[i] == ShowInt(p)[i - |f| - 1];
      }
    }
  }

  /** For a non-negative pid, the uid splits back at its last dash into hostname and pid. */
  lemma UidRoundTrip(pid: Option<int>, osPid: int, hostname: string)
    requires EffectivePid(pid, osPid) >= 0
    ensures SplitLastDash(MakeUid(pid, osPid, hostname)).Some?
    ensures SplitLastDash(MakeUid(pid, osPid, hostname)).value.0 == FilterHost(hostname)
    ensures ParseInt(SplitLastDash(MakeUid(pid, osPid, hostname)).value.1) == Some(EffectivePid(pid, osPid))
  {
    var p := EffectivePid(pid, osPid);
    ShowIntPlain(p);
    SplitAtDash(FilterHost(hostname), ShowInt(p));
    ParseShowInt(p);
  }

  /** Two non-negative pids give the same uid only for the same pid and filtered hostname. */
  lemma UidInjective(p1: Option<int>, o1: int, h1: string, p2: Option<int>, o2: int, h2: string)
    requires EffectivePid(p1, o1) >= 0 && EffectivePid(p2, o2) >= 0
    requires MakeUid(p1, o1, h1) == MakeUid(p2, o2, h2)
    ensures EffectivePid(p1, o1) == EffectivePid(p2, o2) && FilterHost(h1) == FilterHost(h2)
  {
    UidRoundTrip(p1, o1, h1);
    UidRoundTrip(p2, o2, h2);
  }

  /** A missing or zero pid names the current process; any other pid ignores it. */
  lemma PidFallback(pid: Option<int>, osPid: int, hostname: string)
    ensures pid.None? || pid.value == 0 ==> MakeUid(pid, osPid, hostname) == MakeUid(Some(osPid), osPid, hostname)
    ensures pid.Some? && pid.value != 0 ==>
      forall other :: MakeUid(pid, osPid, hostname) == MakeUid(pid, other, hostname)
  {
  }

  /** The argument of `str2bool`: already a bool, or the text given on the command line. */
  datatype Arg = BoolArg(b: bool) | StrArg(s: string)

  const TrueWords: seq<string> := ["yes", "true", "t", "y", "1"]
  const FalseWords: seq<string> := ["no", "false", "f", "n", "0"]

  /** `str2bool(v)`. */
  function Str2Bool(v: Arg): bool
  {
    match v
    case BoolArg(b) => b
    case StrArg(s) =>
      if Lower(s) in TrueWords then true
      else if Lower(s) in FalseWords then false
      else true
  }

  /** No word reads both ways. */
  lemma WordsDisjoint(w: string)
    requires w in FalseWords
    ensures w !in TrueWords
  {
  }

  /** The result is false exactly for a false bool or for one of the false words in any case. */
  lemma Str2BoolFalse(v: Arg)
    ensures !Str2Bool(v) <==> (v.BoolArg? && !v.b) || (v.StrArg? && Lower(v.s) in FalseWords)
  {
    if v.StrArg? && Lower(v.s) in FalseWords {
      WordsDisjoint(Lower(v.s));
    }
  }

  /** Case does not matter. */
  lemma Str2BoolIgnoresCase(s: string)
    ensures Str2Bool(StrArg(Lower(s))) == Str2Bool(StrArg(s))
  {
    LowerIdempotent(s);
  }

  /** A few readings, both spellings of a word and a word that is neither. */
  lemma Str2BoolExamples()
    ensures Str2Bool(StrArg("Yes")) && Str2Bool(StrArg("1"))
    ensures !Str2Bool(StrArg("FALSE")) && !Str2Bool(StrArg("n"))
    ensures Str2Bool(StrArg("maybe")) && !Str2Bool(BoolArg(false))
  {
    assert Lower("Yes") == "yes";
    assert Lower("1") == "1";
    assert Lower("FALSE") == "false";
    assert Lower("n") == "n";
    assert Lower("maybe") == "maybe";
  }
}
