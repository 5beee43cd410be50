// The cache keys of internal/cache/cache.go:89-91 and of the four cached reads
// of internal/store/store.go: no two different reads ever share a key.
module CacheKeys {
  import opened Text

  datatype Read =
    | ListTasks(owner: string, status: string)
    | GetTask(id: int)
    | StatusCounts
    | NextForAgent(agent: string, limit: int)

  function Suffix(r: Read): string {
    match r
    case ListTasks(owner, status) => "tasks:owner=" + Lower(owner) + ":status=" + Upper(status)
    case GetTask(id) => "task:" + Render(id)
    case StatusCounts => "status_counts"
    case NextForAgent(agent, limit) => "next:" + Lower(agent) + ":" + Render(if limit <= 0 then 5 else limit)
  }

  function Key(version: nat, r: Read): string {
    "bs:v" + Digits(version) + ":" + Suffix(r)
  }

  // The arguments a read actually uses: case is folded, and a limit that is not
  // positive means five.
  function Normal(r: Read): Read {
    match r
    case ListTasks(owner, status) => ListTasks(Lower(owner), Upper(status))
    case NextForAgent(agent, limit) => NextForAgent(Lower(agent), if limit <= 0 then 5 else limit)
    case _ => r
  }

  // The same letters, whatever their case.
  predicate SameLetters(x: string, y: string) {
    |x| == |y| && forall i :: 0 <= i < |x| ==>
      x[i] == y[i] || ('A' <= x[i] <= 'Z' && x[i] as int + 32 == y[i] as int)
      || ('A' <= y[i] <= 'Z' && y[i] as int + 32 == x[i] as int)
  }

  predicate MeansFive(limit: int) {
    limit <= 0 || limit == 5
  }

  // Two reads that ask for the same thing.
  predicate AskAlike(r: Read, r': Read) {
    match r
    case ListTasks(owner, status) => r'.ListTasks? && SameLetters(owner, r'.owner) && SameLetters(status, r'.status)
    case GetTask(id) => r' == GetTask(id)
    case StatusCounts => r' == StatusCounts
    case NextForAgent(agent, limit) =>
      r'.NextForAgent? && SameLetters(agent, r'.agent)
      && (limit == r'.limit || (MeansFive(limit) && MeansFive(r'.limit)))
  }

  lemma LowerFolds(x: string, y: string)
    ensures Lower(x) == Lower(y) <==> SameLetters(x, y)
  {
    if Lower(x) == Lower(y) {
      forall i | 0 <= i < |x| ensures LowerChar(x[i]) == LowerChar(y[i]) {
        assert Lower(x)[i] == Lower(y)[i];
      }
    }
  }

  lemma UpperFolds(x: string, y: string)
    ensures Upper(x) == Upper(y) <==> SameLetters(x, y)
  {
    if Upper(x) == Upper(y) {
      forall i | 0 <= i < |x| ensures UpperChar(x[i]) == UpperChar(y[i]) {
        assert Upper(x)[i] == Upper(y)[i];
      }
    }
  }

  lemma NormalAsksAlike(r: Read, r': Read)
    ensures Normal(r) == Normal(r') <==> AskAlike(r, r')
  {
    if r.ListTasks? && r'.ListTasks? {
      LowerFolds(r.owner, r'.owner);
      UpperFolds(r.status, r'.status);
    } else if r.NextForAgent? && r'.NextForAgent? {
      LowerFolds(r.agent, r'.agent);
    }
  }

  lemma CancelPrefix(p: string, x: string, y: string)
    requires p + x == p + y
    ensures x == y
  {
    assert (p + x)[|p|..] == x;
    assert (p + y)[|p|..] == y;
  }

  // Where two texts of the form head ++ separator ++ tail can first differ.

  lemma LongerHeadDiffers(a: string, x: string, b: string, y: string)
    requires |a| < |b| && ':' !in b
    ensures a + ":" + x != b + ":" + y
  {
    assert (a + ":" + x)[|a|] == ':';
    assert (b + ":" + y)[|a|] == b[|a|];
  }

  lemma LongerTailDiffers(a: string, x: string, b: string, y: string)
    requires |a| > |b| && ':' !in y
    ensures a + ":" + x != b + ":" + y
  {
    var left, right := a + ":" + x, b + ":" + y;
    if |left| == |right| {
      assert left[|a|] == ':';
      assert right[|a|] == y[|a| - |b| - 1];
    }
  }

  const STATUS: string := ":status="

  // An upper-cased status holds no 's', so only the last separator can be the
  // one the format string wrote.
  lemma LongerStatusDiffers(a: string, x: string, b: string, y: string)
    requires |a| > |b| && 's' !in y
    ensures a + STATUS + x != b + STATUS + y
  {
    var left, right := a + STATUS + x, b + STATUS + y;
    if |left| == |right| {
      if |a| == |b| + 1 {
        assert left[|a|] == STATUS[0];
        assert right[|a|] == STATUS[1];
      } else {
        assert left[|a| + 6] == STATUS[6];
        assert right[|a| + 6] == y[|a| - |b| - 2];
      }
    }
  }

  lemma SameHeadsSplit(a: string, sep: string, x: string, b: string, y: string)
    requires a + sep + x == b + sep + y && |a| == |b|
    ensures a == b && x == y
  {
    var left, right := a + sep + x, b + sep + y;
    assert left[..|a|] == a && right[..|b|] == b;
    assert left[|a| + |sep|..] == x && right[|b| + |sep|..] == y;
  }

  lemma FirstColonSplits(a: string, x: string, b: string, y: string)
    requires a + ":" + x == b + ":" + y && ':' !in a && ':' !in b
    ensures a == b && x == y
  {
    if |a| < |b| {
      LongerHeadDiffers(a, x, b, y);
    } else if |b| < |a| {
      LongerHeadDiffers(b, y, a, x);
    } else {
      SameHeadsSplit(a, ":", x, b, y);
    }
  }

  lemma LastColonSplits(a: string, x: string, b: string, y: string)
    requires a + ":" + x == b + ":" + y && ':' !in x && ':' !in y
    ensures a == b && x == y
  {
    if |a| > |b| {
      LongerTailDiffers(a, x, b, y);
    } else if |b| > |a| {
      LongerTailDiffers(b, y, a, x);
    } else {
      SameHeadsSplit(a, ":", x, b, y);
    }
  }

  lemma LastStatusSplits(a: string, x: string, b: string, y: string)
    requires a + STATUS + x == b + STATUS + y && 's' !in x && 's' !in y
    ensures a == b && x == y
  {
    if |a| > |b| {
      LongerStatusDiffers(a, x, b, y);
    } else if |b| > |a| {
      LongerStatusDiffers(b, y, a, x);
    } else {
      SameHeadsSplit(a, STATUS, x, b, y);
    }
  }

  // The characters at 0 and 4 tell the four kinds apart.
  lemma SuffixShowsKind(r: Read)
    ensures |Suffix(r)| > 5
    ensures r.ListTasks? ==> Suffix(r)[0] == 't' && Suffix(r)[4] == 's'
    ensures r.GetTask? ==> Suffix(r)[0] == 't' && Suffix(r)[4] == ':'
    ensures r.StatusCounts? ==> Suffix(r)[0] == 's'
    ensures r.NextForAgent? ==> Suffix(r)[0] == 'n'
  {
  }

  lemma ListSuffix(owner: string, status: string, owner': string, status': string)
    requires Suffix(ListTasks(owner, status)) == Suffix(ListTasks(owner', status'))
    ensures Lower(owner) == Lower(owner') && Upper(status) == Upper(status')
  {
    var p := "tasks:owner=";
    var x, y := Lower(owner) + STATUS + Upper(status), Lower(owner') + STATUS + Upper(status');
    assert Suffix(ListTasks(owner, status)) == p + x && Suffix(ListTasks(owner', status')) == p + y;
    CancelPrefix(p, x, y);
    LastStatusSplits(Lower(owner), Upper(status), Lower(owner'), Upper(status'));
  }

  lemma NextSuffix(agent: string, limit: int, agent': string, limit': int)
    requires "next:" + agent + ":" + Render(limit) == "next:" + agent' + ":" + Render(limit')
    ensures agent == agent' && limit == limit'
  {
    LastColonSplits("next:" + agent, Render(limit), "next:" + agent', Render(limit'));
    CancelPrefix("next:", agent, agent');
    RenderIsInjective(limit, limit');
  }

  lemma SuffixDeterminesRead(r: Read, r': Read)
    requires Suffix(r) == Suffix(r')
    ensures Normal(r) == Normal(r')
  {
    SuffixShowsKind(r);
    SuffixShowsKind(r');
    match r {
      case ListTasks(owner, status) =>
        ListSuffix(owner, status, r'.owner, r'.status);
      case GetTask(id) =>
        CancelPrefix("task:", Render(id), Render(r'.id));
        RenderIsInjective(id, r'.id);
      case StatusCounts =>
      case NextForAgent(agent, limit) =>
        NextSuffix(Normal(r).agent, Normal(r).limit, Normal(r').agent, Normal(r').limit);
    }
  }

  // Two cached reads share a key exactly when they run under the same version,
  // are the same kind of read, and use the same arguments.
  lemma KeysAreInjective(v: nat, r: Read, v': nat, r': Read)
    ensures Key(v, r) == Key(v', r') <==> v == v' && Normal(r) == Normal(r')
    ensures Key(v, r) == Key(v', r') <==> v == v' && AskAlike(r, r')
  {
    NormalAsksAlike(r, r');
    if Key(v, r) == Key(v', r') {
      SameKey(v, r, v', r');
    }
    if Normal(r) == Normal(r') {
      SameNormalSameSuffix(r, r');
    }
  }

  lemma KeySplits(d: string, s: string, d': string, s': string)
    requires "bs:v" + d + ":" + s == "bs:v" + d' + ":" + s' && ':' !in d && ':' !in d'
    ensures d == d' && s == s'
  {
    assert "bs:v" + d + ":" + s == "bs:v" + (d + ":" + s);
    assert "bs:v" + d' + ":" + s' == "bs:v" + (d' + ":" + s');
    CancelPrefix("bs:v", d + ":" + s, d' + ":" + s');
    FirstColonSplits(d, s, d', s');
  }

  lemma SameKey(v: nat, r: Read, v': nat, r': Read)
    requires Key(v, r) == Key(v', r')
    ensures v == v' && Normal(r) == Normal(r')
  {
    KeySplits(Digits(v), Suffix(r), Digits(v'), Suffix(r'));
    ValueOfDigits(v);
    ValueOfDigits(v');
    SuffixDeterminesRead(r, r');
  }

  lemma SameNormalSameSuffix(r: Read, r': Read)
    requires Normal(r) == Normal(r')
    ensures Suffix(r) == Suffix(r')
  {
  }
}
