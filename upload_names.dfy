/** `resolveFilename` of the upload storage: keep the original file name if
    it is free in the upload directory, otherwise try `base(2)ext`,
    `base(3)ext`, … until one is free. Names are single path segments (no
    '/'), for which Node's `path.extname` and `path.basename` reduce to the
    rules below. */
module UploadNames {
  import opened Common

  /** The index of the last '.' in `s`. */
  function LastDot(s: string): (r: Option<nat>)
    ensures r.Some? ==> r.value < |s| && s[r.value] == '.' && '.' !in s[r.value + 1..]
    ensures r.None? ==> '.' !in s
  {
    if s == [] then None
    else if s[|s| - 1] == '.' then Some(|s| - 1)
    else
      var r := LastDot(s[..|s| - 1]);
      assert s == s[..|s| - 1] + [s[|s| - 1]];
      r
  }

  /** `path.extname` of a segment: from the last dot, unless there is none,
      it is the first character, or the name is '..'. */
  function Ext(s: string): (e: string)
    requires '/' !in s
    ensures EndsWith(s, e)
    ensures e == [] || (e[0] == '.' && '.' !in e[1..] && |e| < |s|)
    ensures '.' !in s ==> e == []
  {
    match LastDot(s)
    case None => []
    case Some(d) =>
      if d == 0 || (s == "..") then []
      else s[d..]
  }

  /** `path.basename(s, path.extname(s))` of a segment. */
  function Base(s: string): (b: string)
    requires '/' !in s
    ensures b + Ext(s) == s
  {
    s[..|s| - |Ext(s)|]
  }

  lemma ExtExamples()
    ensures Ext("report.txt") == ".txt"
    ensures Ext("archive.tar.gz") == ".gz"
    ensures Ext("...") == "."
  {
    assert LastDot("report.txt") == Some(6);
    assert LastDot("archive.tar.gz") == Some(11);
    assert LastDot("...") == Some(2);
  }

  /** `..` and names without a dot have no extension. */
  lemma NoExtExamples()
    ensures Ext("..") == [] && Ext("README") == []
  {
    assert LastDot("..") == Some(1);
    assert LastDot("README") == None;
  }

  /** A dot-file has no extension. */
  lemma DotFileExample()
    ensures Ext(".bashrc") == []
  {
    assert LastDot(".bashrc") == Some(0);
  }

  /** The name tried on round `n`. */
  function Candidate(original: string, n: nat): (c: string)
    requires '/' !in original
    ensures |c| > |original|
  {
    Base(original) + "(" + NatToString(n) + ")" + Ext(original)
  }

  /** Different rounds try different names. */
  lemma CandidateInjective(original: string, n: nat, m: nat)
    requires '/' !in original
    requires Candidate(original, n) == Candidate(original, m)
    ensures n == m
  {
    var b, e := Base(original), Ext(original);
    var x, y := NatToString(n), NatToString(m);
    Middle(b, x, e);
    Middle(b, y, e);
    assert |x| == |y|;
    NatToRadixInjective(n, m, 10);
  }

  /** The counter can be read back from between the parentheses. */
  lemma Middle(b: string, x: string, e: string)
    ensures |b + "(" + x + ")" + e| == |b| + |x| + |e| + 2
    ensures (b + "(" + x + ")" + e)[|b| + 1..|b| + 1 + |x|] == x
  {
    var c := b + "(" + x + ")" + e;
    assert c == b + ("(" + x + ")" + e);
    assert c[|b|..] == "(" + x + ")" + e;
    assert forall i :: 0 <= i < |x| ==> c[|b| + 1 + i] == x[i];
  }

  /** `resolveFilename(dir, original)`, with `existing` the names present in
      the directory. */
  method ResolveFilename(existing: set<string>, original: string) returns (name: string)
    requires '/' !in original
    ensures name !in existing
    ensures original !in existing ==> name == original
    ensures original in existing ==> exists n ::
      && n >= 2 && name == Candidate(original, n)
      && forall k :: 2 <= k < n ==> Candidate(original, k) in existing
  {
    name := original;
    var n := 2;
    while name in existing
      invariant n >= 2
      invariant name == NameAt(original, n)
      invariant n > 2 ==> original in existing
      invariant forall k :: 2 <= k < n - 1 ==> Candidate(original, k) in existing
      invariant Tried(original, n) <= existing
      decreases |existing| - |Tried(original, n)|
    {
      TakenStep(existing, original, n);
      name := Candidate(original, n);
      n := n + 1;
    }
    if original in existing {
      assert n > 2;
      CounterWitness(existing, original, name, n - 1);
    }
  }

  /** The counter of the last round witnesses the postcondition. */
  lemma CounterWitness(existing: set<string>, original: string, name: string, n: nat)
    requires '/' !in original && n >= 2 && name == NameAt(original, n + 1)
    requires forall k :: 2 <= k < n ==> Candidate(original, k) in existing
    ensures exists n ::
      && n >= 2 && name == Candidate(original, n)
      && forall k :: 2 <= k < n ==> Candidate(original, k) in existing
  {
  }

  /** A round whose name is taken leaves one name fewer to try and one
      more candidate known to be taken. */
  lemma TakenStep(existing: set<string>, original: string, n: nat)
    requires '/' !in original && n >= 2
    requires NameAt(original, n) in existing && Tried(original, n) <= existing
    requires forall k :: 2 <= k < n - 1 ==> Candidate(original, k) in existing
    ensures Tried(original, n + 1) <= existing
    ensures |Tried(original, n)| < |Tried(original, n + 1)| <= |existing|
    ensures forall k :: 2 <= k < n ==> Candidate(original, k) in existing
  {
    assert Tried(original, n + 1) == Tried(original, n) + {NameAt(original, n)};
    TriedSize(original, n);
    TriedSize(original, n + 1);
    SubsetSize(Tried(original, n + 1), existing);
  }

  /** The name tested in round `n`: the original first, then the candidates
      from `(2)` on. */
  function NameAt(original: string, n: nat): (name: string)
    requires '/' !in original && n >= 2
    ensures n > 2 ==> |name| > |original|
  {
    if n == 2 then original else Candidate(original, n - 1)
  }

  /** The names tested before round `n`. */
  ghost function Tried(original: string, n: nat): set<string>
    requires '/' !in original && n >= 2
    decreases n
  {
    if n == 2 then {} else Tried(original, n - 1) + {NameAt(original, n - 1)}
  }

  /** No round tests a name an earlier round tested. */
  lemma {:induction false} NameFresh(original: string, n: nat, j: nat)
    requires '/' !in original && 2 <= n <= j
    ensures NameAt(original, j) !in Tried(original, n)
    decreases n
  {
    if n > 2 {
      NameFresh(original, n - 1, j);
      if n - 1 > 2 && NameAt(original, n - 1) == NameAt(original, j) {
        CandidateInjective(original, n - 2, j - 1);
      }
    }
  }

  lemma {:induction false} TriedSize(original: string, n: nat)
    requires '/' !in original && n >= 2
    ensures |Tried(original, n)| == n - 2
    decreases n
  {
    if n > 2 {
      TriedSize(original, n - 1);
      NameFresh(original, n - 1, n - 1);
    }
  }

  lemma SubsetSize(a: set<string>, b: set<string>)
    requires a <= b
    ensures |a| <= |b|
  {
    assert b == a + (b - a);
  }
}
