/** RemoveRelativePathComponents: a scan from the right that does what a stack does from the left. */
module PathNames {
  import opened Options

  predicate IsDirDelimiter(c: char) { c == '/' }

  const DIR_DELIM := "/"

  /** The names between the delimiters. */
  function Components(s: string): seq<string>
    decreases |s|
  {
    if s == "" then []
    else if IsDirDelimiter(s[|s| - 1]) then Components(s[..|s| - 1])
    else Components(s[..LastStart(s)]) + [s[LastStart(s)..]]
  }

  /** Where the run of non-delimiters at the end starts. */
  function LastStart(s: string): (n: nat)
    ensures n <= |s|
    ensures s != "" && !IsDirDelimiter(s[|s| - 1]) ==> n < |s|
    ensures n > 0 ==> IsDirDelimiter(s[n - 1])
    ensures forall i :: n <= i < |s| ==> !IsDirDelimiter(s[i])
  {
    if s == "" || IsDirDelimiter(s[|s| - 1]) then |s| else LastStart(s[..|s| - 1])
  }

  /** The meaning of relative components: names are pushed, `..` pops; None when there is nothing to pop. */
  function Resolve(parts: seq<string>): Option<seq<string>> {
    if parts == [] then Some([])
    else
      var last := parts[|parts| - 1];
      match Resolve(parts[..|parts| - 1])
      case None => None
      case Some(stack) =>
        if last == "." then Some(stack)
        else if last != ".." then Some(stack + [last])
        else if stack == [] then None
        else Some(stack[..|stack| - 1])
  }

  // What a scan from the right keeps, and how many `..` found nothing to remove.
  datatype Scan = Scan(kept: seq<string>, dotdots: nat)

  function ScanBack(parts: seq<string>, dotdots: nat): Scan {
    if parts == [] then Scan([], dotdots)
    else
      var last, rest := parts[|parts| - 1], parts[..|parts| - 1];
      if last == "." then ScanBack(rest, dotdots)
      else if last == ".." then ScanBack(rest, dotdots + 1)
      else if dotdots > 0 then ScanBack(rest, dotdots - 1)
      else
        var r := ScanBack(rest, 0);
        Scan(r.kept + [last], r.dotdots)
  }

  /** Counting from the right is the stack from the left. */
  lemma {:induction false} ScanIsResolve(parts: seq<string>, k: nat)
    ensures match Resolve(parts)
            case None => ScanBack(parts, k).dotdots > 0
            case Some(stack) =>
              ScanBack(parts, k) == if |stack| >= k then Scan(stack[..|stack| - k], 0) else Scan([], k - |stack|)
  {
    if parts != [] {
      var last, rest := parts[|parts| - 1], parts[..|parts| - 1];
      if last == "." {
        ScanIsResolve(rest, k);
      } else if last == ".." {
        ScanIsResolve(rest, k + 1);
        if Resolve(rest).Some? && Resolve(rest).value != [] {
          var stack := Resolve(rest).value;
          assert |stack| >= k + 1 ==> stack[..|stack| - 1][..|stack| - 1 - k] == stack[..|stack| - (k + 1)];
        }
      } else if k > 0 {
        ScanIsResolve(rest, k - 1);
        if Resolve(rest).Some? {
          var stack := Resolve(rest).value;
          assert |stack| >= k - 1 ==> (stack + [last])[..|stack| + 1 - k] == stack[..|stack| - (k - 1)];
        }
      } else {
        ScanIsResolve(rest, 0);
        if Resolve(rest).Some? {
          var stack := Resolve(rest).value;
          assert stack[..|stack|] == stack && (stack + [last])[..|stack| + 1] == stack + [last];
        }
      }
    }
  }

  /** How many `..` are too many: some prefix has more of them than names. */
  function Balance(parts: seq<string>): int {
    if parts == [] then 0
    else
      Balance(parts[..|parts| - 1]) +
      (if parts[|parts| - 1] == ".." then -1 else if parts[|parts| - 1] == "." then 0 else 1)
  }

  lemma {:induction false} ResolvesUnlessUnderflow(parts: seq<string>)
    ensures Resolve(parts).Some? <==> forall n :: 0 <= n <= |parts| ==> Balance(parts[..n]) >= 0
    ensures Resolve(parts).Some? ==> |Resolve(parts).value| == Balance(parts)
  {
    var n := |parts|;
    assert parts[..n] == parts;
    if parts != [] {
      var rest := parts[..n - 1];
      ResolvesUnlessUnderflow(rest);
      forall m | 0 <= m < n ensures parts[..m] == rest[..m] {}
      if forall m :: 0 <= m <= n ==> Balance(parts[..m]) >= 0 {
        forall m | 0 <= m < n ensures Balance(rest[..m]) >= 0 {
          assert Balance(parts[..m]) >= 0;
        }
      }
    }
  }

  /** No component is cut in two at the seam. */
  predicate Seam(a: string, b: string) {
    a == "" || b == "" || IsDirDelimiter(a[|a| - 1]) || IsDirDelimiter(b[0])
  }

  lemma {:induction false} ComponentsJoin(a: string, b: string)
    requires Seam(a, b)
    ensures Components(a + b) == Components(a) + Components(b)
    decreases |b|
  {
    hide LastStart, Components;
    if b == "" {
      assert a + b == a;
      NoComponents(b);
    } else if IsDirDelimiter(b[|b| - 1]) {
      assert (a + b)[..|a + b| - 1] == a + b[..|b| - 1];
      LastDelimiter(a + b);
      LastDelimiter(b);
      ComponentsJoin(a, b[..|b| - 1]);
    } else {
      var n := LastStart(b);
      StartOfJoin(a, b);
      ComponentsJoin(a, b[..n]);
      LastComponent(a + b, |a| + n);
      LastComponent(b, n);
      assert (a + b)[..|a| + n] == a + b[..n] && (a + b)[|a| + n..] == b[n..];
    }
  }

  lemma LastDelimiter(s: string)
    requires s != "" && IsDirDelimiter(s[|s| - 1])
    ensures Components(s) == Components(s[..|s| - 1])
  {
  }

  lemma LastComponent(s: string, n: nat)
    requires s != "" && !IsDirDelimiter(s[|s| - 1]) && n == LastStart(s)
    ensures Components(s) == Components(s[..n]) + [s[n..]]
  {
  }

  lemma StartOfJoin(a: string, b: string)
    requires Seam(a, b) && b != "" && !IsDirDelimiter(b[|b| - 1])
    ensures LastStart(a + b) == |a| + LastStart(b)
  {
    StartIsUnique(a + b, |a| + LastStart(b));
  }

  lemma StartIsUnique(s: string, n: nat)
    requires n <= |s| && (n > 0 ==> IsDirDelimiter(s[n - 1])) && forall i :: n <= i < |s| ==> !IsDirDelimiter(s[i])
    ensures LastStart(s) == n
  {
  }

  predicate AllDelimiters(s: string) {
    forall i :: 0 <= i < |s| ==> IsDirDelimiter(s[i])
  }

  lemma {:induction false} NoComponents(s: string)
    requires AllDelimiters(s)
    ensures Components(s) == []
  {
    if s != "" {
      NoComponents(s[..|s| - 1]);
    }
  }

  method SkipDelimiters(path: string, pos: nat) returns (p: nat)
    requires pos <= |path|
    ensures p <= pos && AllDelimiters(path[p..pos]) && (p > 0 ==> !IsDirDelimiter(path[p - 1]))
  {
    p := pos;
    while p != 0 && IsDirDelimiter(path[p - 1])
      invariant p <= pos && AllDelimiters(path[p..pos])
    {
      p := p - 1;
    }
  }

  method SkipName(path: string, pos: nat) returns (p: nat)
    requires pos <= |path|
    ensures p <= pos && (p > 0 ==> IsDirDelimiter(path[p - 1]))
    ensures forall i :: p <= i < pos ==> !IsDirDelimiter(path[i])
    ensures pos > 0 && !IsDirDelimiter(path[pos - 1]) ==> p < pos
  {
    p := pos;
    while p != 0 && !IsDirDelimiter(path[p - 1])
      invariant p <= pos && forall i :: p <= i < pos ==> !IsDirDelimiter(path[i])
      invariant pos > 0 && !IsDirDelimiter(path[pos - 1]) ==> p < pos || p == pos
    {
      p := p - 1;
    }
  }

  predicate Absolute(s: string) { s != "" && IsDirDelimiter(s[0]) }

  /** What is scanned is kept; what is not yet is the prefix up to `pos`. */
  ghost predicate Scanned(path0: string, path: string, pos: nat, dotdots: nat) {
    && pos <= |path| && Seam(path[..pos], path[pos..])
    && (0 < pos < |path| ==> !IsDirDelimiter(path[pos]))
    && (path != "" ==> Absolute(path) == Absolute(path0))
    && (dotdots > 0 ==> pos == 0 || !AllDelimiters(path[..pos]))
    && var r := ScanBack(Components(path[..pos]), dotdots);
       ScanBack(Components(path0), 0) == Scan(r.kept + Components(path[pos..]), r.dotdots)
  }

  /** How the prefix ends: a shorter prefix, a name, and delimiters. */
  lemma PrefixParts(path: string, start: nat, end: nat, pos: nat)
    requires start <= end <= pos <= |path| && AllDelimiters(path[end..pos])
    requires (start > 0 ==> IsDirDelimiter(path[start - 1])) && forall i :: start <= i < end ==> !IsDirDelimiter(path[i])
    ensures Components(path[..pos]) == Components(path[..start]) + if start < end then [path[start..end]] else []
  {
    assert path[..pos] == path[..end] + path[end..pos];
    NoComponents(path[end..pos]);
    ComponentsJoin(path[..end], path[end..pos]);
    if start < end {
      StartIsUnique(path[..end], start);
      assert path[..end][..start] == path[..start] && path[..end][start..] == path[start..end];
    } else {
      assert path[..start] == path[..end];
    }
  }

  lemma ScanStarts(path: string)
    ensures Scanned(path, path, |path|, 0)
  {
    assert path[..|path|] == path && path[|path|..] == "";
    var r := ScanBack(Components(path), 0);
    assert r.kept + [] == r.kept;
  }

  /** A name is kept: the scan goes on before it. */
  lemma ScanKeeps(path0: string, path: string, pos: nat, start: nat, end: nat)
    requires Scanned(path0, path, pos, 0) && start < end <= pos && AllDelimiters(path[end..pos])
    requires (start > 0 ==> IsDirDelimiter(path[start - 1])) && forall i :: start <= i < end ==> !IsDirDelimiter(path[i])
    requires path[start..end] != "." && path[start..end] != ".."
    ensures Scanned(path0, path, start, 0)
  {
    var name, left, right := path[start..end], path[..start], path[pos..];
    PrefixParts(path, start, end, pos);
    SuffixParts(path, start, end, pos);
    var parts := Components(left);
    assert (parts + [name])[..|parts|] == parts;
    var r := ScanBack(parts, 0);
    assert r.kept + [name] + Components(right) == r.kept + ([name] + Components(right));
  }

  lemma SuffixParts(path: string, start: nat, end: nat, pos: nat)
    requires start < end <= pos <= |path| && AllDelimiters(path[end..pos]) && Seam(path[..pos], path[pos..])
    requires (start > 0 ==> IsDirDelimiter(path[start - 1])) && forall i :: start <= i < end ==> !IsDirDelimiter(path[i])
    ensures Components(path[start..]) == [path[start..end]] + Components(path[pos..])
    ensures Seam(path[..start], path[start..])
  {
    hide Components, LastStart;
    var name, gap, right := path[start..end], path[end..pos], path[pos..];
    assert path[start..] == name + gap + right;
    OneComponent(name);
    NoComponents(gap);
    ComponentsJoin(name, gap);
    assert (name + gap)[|name + gap| - 1] == path[pos - 1] == path[..pos][pos - 1];
    ComponentsJoin(name + gap, right);
  }

  lemma OneComponent(name: string)
    requires name != "" && forall i :: 0 <= i < |name| ==> !IsDirDelimiter(name[i])
    ensures Components(name) == [name]
  {
    StartIsUnique(name, 0);
    assert name[..0] == "" && name[0..] == name;
  }

  /** What the scan makes of the last name, if it removes it. */
  function Remaining(name: string, dotdots: nat): Option<nat> {
    if name == "." then Some(dotdots)
    else if name == ".." then Some(dotdots + 1)
    else if dotdots != 0 then Some(dotdots - 1)
    else None
  }

  lemma RemainingScans(parts: seq<string>, name: string, dotdots: nat)
    requires Remaining(name, dotdots).Some?
    ensures ScanBack(parts + [name], dotdots) == ScanBack(parts, Remaining(name, dotdots).value)
  {
    assert (parts + [name])[..|parts|] == parts;
  }

  /** The path without a name and the delimiters around it. */
  function Cut(path: string, q: nat, start: nat, pos: nat): string
    requires q <= start <= pos <= |path|
  {
    if start == 0 then path[pos..] else path[..q] + DIR_DELIM + path[pos..]
  }

  /** A name is removed: the scan goes on before the delimiter that is left of those around it. */
  lemma ScanRemoves(path0: string, path: string, pos: nat, dotdots: nat, q: nat, start: nat, end: nat)
    requires Scanned(path0, path, pos, dotdots) && q <= start < end <= pos && AllDelimiters(path[end..pos])
    requires (start > 0 ==> IsDirDelimiter(path[start - 1])) && forall i :: start <= i < end ==> !IsDirDelimiter(path[i])
    requires AllDelimiters(path[q..start]) && (q > 0 ==> !IsDirDelimiter(path[q - 1]))
    requires Remaining(path[start..end], dotdots).Some?
    ensures (if q > 0 then q + 1 else 0) <= |Cut(path, q, start, pos)|
    ensures Scanned(path0, Cut(path, q, start, pos), if q > 0 then q + 1 else 0, Remaining(path[start..end], dotdots).value)
  {
    var cut, p, d := Cut(path, q, start, pos), if q > 0 then q + 1 else 0, Remaining(path[start..end], dotdots).value;
    PrefixParts(path, start, end, pos);
    RemainingScans(Components(path[..start]), path[start..end], dotdots);
    CutParts(path, q, start, pos);
    assert Components(path[..q]) == Components(path[..start]) by {
      assert path[..start] == path[..q] + path[q..start];
      NoComponents(path[q..start]);
      ComponentsJoin(path[..q], path[q..start]);
    }
  }

  lemma CutParts(path: string, q: nat, start: nat, pos: nat)
    requires q <= start < pos <= |path| && (0 < pos < |path| ==> !IsDirDelimiter(path[pos]))
    requires (q > 0 ==> !IsDirDelimiter(path[q - 1])) && (start > 0 ==> q < start && IsDirDelimiter(path[start - 1]))
    requires AllDelimiters(path[q..start]) && (start == 0 ==> !IsDirDelimiter(path[0]))
    ensures var cut, p := Cut(path, q, start, pos), if q > 0 then q + 1 else 0;
            && p <= |cut| && Seam(cut[..p], cut[p..]) && (0 < p < |cut| ==> !IsDirDelimiter(cut[p]))
            && Components(cut[..p]) == Components(path[..q]) && Components(cut[p..]) == Components(path[pos..])
            && (cut != "" ==> Absolute(cut) == Absolute(path))
            && (p > 0 ==> !AllDelimiters(cut[..p]))
  {
    var cut, p := Cut(path, q, start, pos), if q > 0 then q + 1 else 0;
    if q > 0 {
      assert cut[..p] == path[..q] + DIR_DELIM && cut[p..] == path[pos..];
      assert cut[..p][q - 1] == path[q - 1];
      assert (path[..q] + DIR_DELIM)[..q] == path[..q];
    } else if start > 0 {
      assert cut == DIR_DELIM + path[pos..] && cut[0..] == cut;
      NoComponents(DIR_DELIM);
      ComponentsJoin(DIR_DELIM, path[pos..]);
      assert path[0..start][0] == path[0];
    } else {
      assert cut[0..] == cut;
    }
  }

  method RemoveRelativePathComponents(path0: string) returns (r: string)
    ensures match Resolve(Components(path0))
            case None => r == ""
            case Some(stack) => Components(r) == stack
    ensures r != "" ==> (r[0] == '/' <==> path0 != "" && path0[0] == '/') && r[|r| - 1] != '/'
  {
    hide Scanned, ScanBack, Components, Resolve, Cut;
    var path, pos: nat, dotdots: nat := path0, |path0|, 0;
    ScanStarts(path0);
    while pos != 0
      invariant pos <= |path| && Scanned(path0, path, pos, dotdots)
      decreases pos
    {
      var end := SkipDelimiters(path, pos);
      var start := SkipName(path, end);
      var component := path[start..end];
      var remaining := Remaining(component, dotdots);
      if remaining.Some? {
        NameThere(path0, path, pos, dotdots, start, end);
        var q := SkipDelimiters(path, start);
        ScanRemoves(path0, path, pos, dotdots, q, start, end);
        path := Cut(path, q, start, pos);
        dotdots := remaining.value;
        pos := if q > 0 then q + 1 else 0;
      } else {
        if start < end {
          ScanKeeps(path0, path, pos, start, end);
        } else {
          ScanEnds(path0, path, pos, end);
        }
        pos := start;
      }
    }
    ScanDone(path0, path, dotdots);
    if dotdots > 0 {
      return "";
    }
    var last := SkipDelimiters(path, |path|);
    StripEnd(path, last);
    r := path[..last];
  }

  /** At the front of the path, the scan has found what the stack finds. */
  lemma ScanDone(path0: string, path: string, dotdots: nat)
    requires Scanned(path0, path, 0, dotdots)
    ensures Resolve(Components(path0)) == if dotdots > 0 then None else Some(Components(path))
    ensures path != "" ==> Absolute(path) == Absolute(path0)
  {
    ScanIsResolve(Components(path0), 0);
    assert path[..0] == "" && path[0..] == path;
    var stack := Resolve(Components(path0));
    assert [] + Components(path) == Components(path);
    assert ScanBack(Components(path[..0]), dotdots) == Scan([], dotdots);
    assert stack.Some? ==> stack.value[..|stack.value| - 0] == stack.value;
  }

  lemma StripEnd(path: string, last: nat)
    requires last <= |path| && AllDelimiters(path[last..])
    ensures Components(path[..last]) == Components(path)
  {
    assert path == path[..last] + path[last..];
    NoComponents(path[last..]);
    ComponentsJoin(path[..last], path[last..]);
  }

  /** Only delimiters are left: they lead the path. */
  lemma ScanEnds(path0: string, path: string, pos: nat, end: nat)
    requires pos <= |path| && Scanned(path0, path, pos, 0) && end == 0 && AllDelimiters(path[end..pos])
    ensures Scanned(path0, path, 0, 0)
  {
    assert path[end..pos] == path[..pos];
    assert path == path[..pos] + path[pos..] && path[..0] == "" && path[0..] == path;
    NoComponents(path[..pos]);
    ComponentsJoin(path[..pos], path[pos..]);
  }

  /** While `..` are open, there is a name before the position. */
  lemma NameThere(path0: string, path: string, pos: nat, dotdots: nat, start: nat, end: nat)
    requires Scanned(path0, path, pos, dotdots) && 0 < pos && start <= end <= pos
    requires AllDelimiters(path[end..pos]) && (end > 0 ==> !IsDirDelimiter(path[end - 1]))
    requires end > 0 ==> start < end
    requires Remaining(path[start..end], dotdots).Some?
    ensures start < end
  {
    assert path[..pos] == path[0..pos];
  }
}
