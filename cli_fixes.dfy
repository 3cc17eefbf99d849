/** The command-line tool's `applyFixes`, the `--quiet` filter of `run` and
    the extension filter of `findFiles`. */
module CliFixes {
  import opened Wrappers
  import opened Text
  import opened Types

  // ---------------------------------------------------------------------
  // applyFixes
  // ---------------------------------------------------------------------

  /** Where a fix starts: the offset of its range's start, 0 when that is missing. */
  function FixStart(f: Fix): nat {
    f.range.start.offset.GetOr(0)
  }

  /** Where a fix ends: the offset of its range's end, its start when that is missing. */
  function FixEnd(f: Fix): nat {
    f.range.end.offset.GetOr(FixStart(f))
  }

  /** The fixes of the issues that carry one, in issue order. */
  function FixesOf(issues: seq<LintIssue>): (fs: seq<Fix>)
    ensures |fs| <= |issues|
    ensures forall f :: f in fs ==> exists i :: 0 <= i < |issues| && issues[i].fix == Some(f)
    ensures forall i :: 0 <= i < |issues| && issues[i].fix.Some? ==> issues[i].fix.value in fs
  {
    if issues == [] then []
    else
      var rest := FixesOf(issues[1..]);
      assert forall i :: 1 <= i < |issues| ==> issues[i] == issues[1..][i - 1];
      (if issues[0].fix.Some? then [issues[0].fix.value] else []) + rest
  }

  /** The order the fix sort asks for: by start, latest first. */
  predicate Descending(fs: seq<Fix>) {
    forall i, j :: 0 <= i < j < |fs| ==> FixStart(fs[i]) >= FixStart(fs[j])
  }

  /** `f` put in front of the first fix whose start is not above its own. */
  function Insert(f: Fix, s: seq<Fix>): (r: seq<Fix>)
    ensures |r| == |s| + 1
    ensures multiset(r) == multiset(s) + multiset{f}
  {
    if s == [] || FixStart(f) >= FixStart(s[0]) then [f] + s
    else
      assert s == [s[0]] + s[1..];
      [s[0]] + Insert(f, s[1..])
  }

  /** The stable sort of `[...fixableIssues].sort(...)`: an earlier fix
      stays in front of a later one with the same start. */
  function SortDescending(fs: seq<Fix>): (r: seq<Fix>)
    ensures |r| == |fs|
  {
    if fs == [] then [] else Insert(fs[0], SortDescending(fs[1..]))
  }

  lemma {:induction false} InsertDescending(f: Fix, s: seq<Fix>)
    requires Descending(s)
    ensures Descending(Insert(f, s))
  {
    if s == [] || FixStart(f) >= FixStart(s[0]) {
    } else {
      InsertDescending(f, s[1..]);
      var r := Insert(f, s[1..]);
      forall k | 0 <= k < |r|
        ensures FixStart(s[0]) >= FixStart(r[k])
      {
        assert r[k] in multiset(r);
        if r[k] != f {
          assert r[k] in multiset(s[1..]);
          var m :| 0 <= m < |s[1..]| && s[1..][m] == r[k];
          assert s[m + 1] == r[k];
        }
      }
    }
  }

  /** The sort only reorders. */
  lemma {:induction false} SortDescendingPermutes(fs: seq<Fix>)
    ensures multiset(SortDescending(fs)) == multiset(fs)
  {
    if fs != [] {
      SortDescendingPermutes(fs[1..]);
      assert fs == [fs[0]] + fs[1..];
    }
  }

  /** The sort orders by descending start. */
  lemma {:induction false} SortDescendingSorts(fs: seq<Fix>)
    ensures Descending(SortDescending(fs))
  {
    if fs != [] {
      SortDescendingSorts(fs[1..]);
      InsertDescending(fs[0], SortDescending(fs[1..]));
    }
  }

  /** The fixes starting at `k`, in their order. */
  function WithStart(fs: seq<Fix>, k: nat): seq<Fix> {
    if fs == [] then []
    else (if FixStart(fs[0]) == k then [fs[0]] else []) + WithStart(fs[1..], k)
  }

  lemma {:induction false} InsertWithStart(f: Fix, s: seq<Fix>, k: nat)
    requires Descending(s)
    ensures WithStart(Insert(f, s), k) == (if FixStart(f) == k then [f] else []) + WithStart(s, k)
  {
    if s == [] || FixStart(f) >= FixStart(s[0]) {
      assert ([f] + s)[1..] == s;
    } else {
      InsertWithStart(f, s[1..], k);
      assert ([s[0]] + Insert(f, s[1..]))[1..] == Insert(f, s[1..]);
    }
  }

  /** Stability: the fixes with one start come out in their input order. */
  lemma {:induction false} SortDescendingStable(fs: seq<Fix>, k: nat)
    ensures WithStart(SortDescending(fs), k) == WithStart(fs, k)
  {
    if fs != [] {
      SortDescendingStable(fs[1..], k);
      SortDescendingSorts(fs[1..]);
      InsertWithStart(fs[0], SortDescending(fs[1..]), k);
    }
  }

  /** One step of the loop: `result.substring(0, start) + fix.text +
      result.substring(end)`, with JavaScript's clamping to the length. */
  function Splice(text: string, f: Fix): string {
    ClampedTake(text, FixStart(f)) + f.text + ClampedDrop(text, FixEnd(f))
  }

  /** The loop over the sorted fixes, first to last. */
  function SpliceAll(text: string, fs: seq<Fix>): string
    decreases |fs|
  {
    if fs == [] then text else SpliceAll(Splice(text, fs[0]), fs[1..])
  }

  /** `applyFixes`: the fixable issues are sorted by descending start and
      spliced into the text one after the other; the count is the number
      of issues carrying a fix, and without any the text is returned as is. */
  method ApplyFixes(sourceCode: string, issues: seq<LintIssue>) returns (fixedCode: string, fixCount: nat)
    ensures fixedCode == SpliceAll(sourceCode, SortDescending(FixesOf(issues)))
    ensures fixCount == |FixesOf(issues)|
    ensures FixesOf(issues) == [] ==> fixedCode == sourceCode && fixCount == 0
  {
    var fixable := FixesOf(issues);
    if |fixable| == 0 {
      return sourceCode, 0;
    }
    var sorted := SortDescending(fixable);
    fixedCode := sourceCode;
    fixCount := 0;
    for i := 0 to |sorted|
      invariant fixCount == i
      invariant SpliceAll(fixedCode, sorted[i..]) == SpliceAll(sourceCode, sorted)
    {
      var f := sorted[i];
      var start := FixStart(f);
      var end := FixEnd(f);
      fixedCode := ClampedTake(fixedCode, start) + f.text + ClampedDrop(fixedCode, end);
      fixCount := fixCount + 1;
      assert sorted[i..][1..] == sorted[i + 1..];
    }
  }

  /** Spans inside the text that do not overlap, from the end of the text
      backwards: each one ends where or before the previous one starts. */
  predicate Separated(text: string, fs: seq<Fix>) {
    && (forall i :: 0 <= i < |fs| ==> FixStart(fs[i]) <= FixEnd(fs[i]) <= |text|)
    && (forall i, j :: 0 <= i < j < |fs| ==> FixEnd(fs[j]) <= FixStart(fs[i]))
  }

  /** Replacing each span of the original text: the text in front of the
      last span, with the other spans replaced, then the fix, then the
      original text after the span. */
  function Replaced(text: string, fs: seq<Fix>): string
    requires Separated(text, fs)
    decreases |fs|
  {
    if fs == [] then text
    else Replaced(text[..FixStart(fs[0])], fs[1..]) + fs[0].text + text[FixEnd(fs[0])..]
  }

  /** Splicing spans that lie inside `a` leaves a following `b` alone. */
  lemma {:induction false} SpliceAllAppend(a: string, b: string, fs: seq<Fix>)
    requires Separated(a, fs)
    ensures SpliceAll(a + b, fs) == SpliceAll(a, fs) + b
    decreases |fs|
  {
    if fs != [] {
      var f := fs[0];
      var a' := Splice(a, f);
      assert (a + b)[..FixStart(f)] == a[..FixStart(f)];
      assert (a + b)[FixEnd(f)..] == a[FixEnd(f)..] + b;
      assert Splice(a + b, f) == a' + b;
      assert Separated(a', fs[1..]);
      SpliceAllAppend(a', b, fs[1..]);
    }
  }

  /** For separated spans the loop replaces each span of the original text. */
  lemma {:induction false} SpliceAllReplaces(text: string, fs: seq<Fix>)
    requires Separated(text, fs)
    ensures SpliceAll(text, fs) == Replaced(text, fs)
    decreases |fs|
  {
    if fs != [] {
      var f := fs[0];
      var front := text[..FixStart(f)];
      var back := f.text + text[FixEnd(f)..];
      assert Splice(text, f) == front + back;
      assert Separated(front, fs[1..]);
      SpliceAllAppend(front, back, fs[1..]);
      SpliceAllReplaces(front, fs[1..]);
    }
  }

  /** Spans inside the text that pairwise do not overlap and start at
      distinct offsets, in any order. */
  predicate Disjoint(text: string, fs: seq<Fix>) {
    && (forall i :: 0 <= i < |fs| ==> FixStart(fs[i]) <= FixEnd(fs[i]) <= |text|)
    && (forall i, j :: 0 <= i < |fs| && 0 <= j < |fs| && i != j ==>
          FixStart(fs[i]) != FixStart(fs[j]) && (FixEnd(fs[i]) <= FixStart(fs[j]) || FixEnd(fs[j]) <= FixStart(fs[i])))
  }

  /** `f` lies inside the text and apart from every span of `s`, at a
      start of its own. */
  predicate ApartFrom(text: string, f: Fix, s: seq<Fix>) {
    && FixStart(f) <= FixEnd(f) <= |text|
    && forall x :: x in s ==>
         FixStart(x) != FixStart(f) && (FixEnd(x) <= FixStart(f) || FixEnd(f) <= FixStart(x))
  }

  /** `f` in front of `s`, when it starts after every fix of `s`. */
  lemma InsertFrontSeparated(text: string, f: Fix, s: seq<Fix>)
    requires Separated(text, s) && Descending(s) && ApartFrom(text, f, s)
    requires s == [] || FixStart(f) >= FixStart(s[0])
    ensures Separated(text, [f] + s)
  {
    var r := [f] + s;
    forall j | 1 <= j < |r| ensures FixEnd(r[j]) <= FixStart(f) {
      assert r[j] == s[j - 1] && s[j - 1] in s;
      assert FixStart(s[0]) >= FixStart(s[j - 1]);
    }
  }

  /** Every fix of `Insert(f, s)` ends where or before `g` starts when
      `f` and every fix of `s` do. */
  lemma InsertEndsBefore(f: Fix, s: seq<Fix>, g: Fix)
    requires FixEnd(f) <= FixStart(g)
    requires forall x :: x in s ==> FixEnd(x) <= FixStart(g)
    ensures forall y :: y in Insert(f, s) ==> FixEnd(y) <= FixStart(g)
  {
    forall y | y in Insert(f, s) ensures FixEnd(y) <= FixStart(g) {
      assert y in multiset(Insert(f, s));
    }
  }

  lemma {:induction false} InsertSeparated(text: string, f: Fix, s: seq<Fix>)
    requires Separated(text, s) && Descending(s) && ApartFrom(text, f, s)
    ensures Separated(text, Insert(f, s))
  {
    if s == [] || FixStart(f) >= FixStart(s[0]) {
      InsertFrontSeparated(text, f, s);
    } else {
      var head := s[0];
      var tail := s[1..];
      assert head in s;
      assert ApartFrom(text, f, tail) by {
        forall x | x in tail ensures x in s { }
      }
      InsertSeparated(text, f, tail);
      forall x | x in tail ensures FixEnd(x) <= FixStart(head) {
        var m :| 0 <= m < |tail| && tail[m] == x;
        assert s[m + 1] == x;
      }
      InsertEndsBefore(f, tail, head);
      SeparatedCons(text, head, Insert(f, tail));
    }
  }

  /** A span in front of separated spans that all end before it starts. */
  lemma SeparatedCons(text: string, head: Fix, t: seq<Fix>)
    requires Separated(text, t) && FixStart(head) <= FixEnd(head) <= |text|
    requires forall y :: y in t ==> FixEnd(y) <= FixStart(head)
    ensures Separated(text, [head] + t)
  {
    var r := [head] + t;
    forall i, j | 0 <= i < j < |r| ensures FixEnd(r[j]) <= FixStart(r[i]) {
      assert r[j] == t[j - 1] && t[j - 1] in t;
      if i > 0 {
        assert r[i] == t[i - 1];
      }
    }
  }

  /** Disjoint spans in any order are separated once sorted. */
  lemma {:induction false} SortedDisjointIsSeparated(text: string, fs: seq<Fix>)
    requires Disjoint(text, fs)
    ensures Separated(text, SortDescending(fs))
  {
    if fs != [] {
      var rest := fs[1..];
      assert Disjoint(text, rest) by {
        forall i | 0 <= i < |rest| ensures rest[i] == fs[i + 1] { }
      }
      SortedDisjointIsSeparated(text, rest);
      SortDescendingSorts(rest);
      SortDescendingPermutes(rest);
      var sorted := SortDescending(rest);
      forall x | x in sorted
        ensures FixStart(x) != FixStart(fs[0]) && (FixEnd(x) <= FixStart(fs[0]) || FixEnd(fs[0]) <= FixStart(x))
      {
        assert x in multiset(rest);
        var m :| 0 <= m < |rest| && rest[m] == x;
        assert fs[m + 1] == x;
      }
      InsertSeparated(text, fs[0], sorted);
    }
  }

  /** `applyFixes` on fixes whose spans lie inside the text, pairwise apart
      and at distinct starts replaces each span of the original text. */
  lemma ApplyFixesReplaces(sourceCode: string, issues: seq<LintIssue>)
    requires Disjoint(sourceCode, FixesOf(issues))
    ensures Separated(sourceCode, SortDescending(FixesOf(issues)))
    ensures SpliceAll(sourceCode, SortDescending(FixesOf(issues)))
            == Replaced(sourceCode, SortDescending(FixesOf(issues)))
  {
    SortedDisjointIsSeparated(sourceCode, FixesOf(issues));
    SpliceAllReplaces(sourceCode, SortDescending(FixesOf(issues)));
  }

  /** The dangling-semicolon fix on `if x > 0 then; y := 1;`: removing the
      semicolon at [13, 14) gives `if x > 0 then y := 1;`. */
  lemma DanglingSemicolonFixExample(issue: LintIssue)
    requires issue.fix == Some(Fix(Range(Position(0, 13, Some(13)), Position(0, 14, Some(14))), ""))
    ensures SpliceAll("if x > 0 then; y := 1;", SortDescending(FixesOf([issue]))) == "if x > 0 then y := 1;"
  {
    assert FixesOf([issue]) == [issue.fix.value];
    var s := "if x > 0 then; y := 1;";
    assert s[..13] + "" + s[14..] == "if x > 0 then y := 1;";
  }

  // ---------------------------------------------------------------------
  // The quiet filter
  // ---------------------------------------------------------------------

  /** The `--quiet` filter: only the issues at severity `error`, in order. */
  function Quiet(issues: seq<LintIssue>): (r: seq<LintIssue>)
    ensures |r| <= |issues|
  {
    if issues == [] then []
    else (if issues[0].severity == Error then [issues[0]] else []) + Quiet(issues[1..])
  }

  /** Quiet mode keeps exactly the errors. */
  lemma {:induction false} QuietKeepsExactlyErrors(issues: seq<LintIssue>)
    ensures forall x :: x in Quiet(issues) <==> x in issues && x.severity == Error
  {
    if issues != [] {
      QuietKeepsExactlyErrors(issues[1..]);
      assert issues == [issues[0]] + issues[1..];
    }
  }

  /** Filtering a concatenation filters each part, so order is kept. */
  lemma {:induction false} QuietAppend(a: seq<LintIssue>, b: seq<LintIssue>)
    ensures Quiet(a + b) == Quiet(a) + Quiet(b)
  {
    if a == [] {
      assert a + b == b;
    } else {
      var head := if a[0].severity == Error then [a[0]] else [];
      assert (a + b)[0] == a[0] && (a + b)[1..] == a[1..] + b;
      calc {
        Quiet(a + b);
        head + Quiet(a[1..] + b);
        { QuietAppend(a[1..], b); }
        head + (Quiet(a[1..]) + Quiet(b));
        (head + Quiet(a[1..])) + Quiet(b);
        Quiet(a) + Quiet(b);
      }
    }
  }

  /** Only errors: nothing is dropped. */
  lemma {:induction false} QuietKeepsErrors(issues: seq<LintIssue>)
    requires forall i :: 0 <= i < |issues| ==> issues[i].severity == Error
    ensures Quiet(issues) == issues
  {
    if issues != [] {
      QuietKeepsErrors(issues[1..]);
    }
  }

  /** No errors: everything is dropped. */
  lemma {:induction false} QuietDropsWarnings(issues: seq<LintIssue>)
    requires forall i :: 0 <= i < |issues| ==> issues[i].severity != Error
    ensures Quiet(issues) == []
  {
    if issues != [] {
      QuietDropsWarnings(issues[1..]);
    }
  }

  // ---------------------------------------------------------------------
  // The extension filter of findFiles
  // ---------------------------------------------------------------------

  const PascalExtensions: seq<string> := [".pas", ".dpr", ".dpk", ".pp", ".lpr"]

  /** The path without its trailing slashes. */
  function TrimSlashes(p: string): (r: string)
    ensures |r| <= |p| && r == p[..|r|]
    ensures r == [] || r[|r| - 1] != '/'
    ensures p != [] && p[|p| - 1] != '/' ==> r == p
  {
    if p != [] && p[|p| - 1] == '/' then TrimSlashes(p[..|p| - 1]) else p
  }

  /** The last path segment. */
  function BaseName(p: string): (r: string)
    ensures '/' !in r
  {
    var t := TrimSlashes(p);
    var s := LastIndexOfChar(t, '/');
    var r := t[s + 1..];
    assert forall j :: 0 <= j < |r| ==> r[j] == t[s + 1 + j];
    r
  }

  /** POSIX `path.extname`: from the last `.` of the last segment to its
      end; empty when the segment has no `.`, starts with its only `.`, or
      is `..`. */
  function ExtName(p: string): (r: string)
    ensures r == [] || (r[0] == '.' && '.' !in r[1..] && '/' !in r)
  {
    var b := BaseName(p);
    var d := LastIndexOfChar(b, '.');
    if d <= 0 || b == ".." then ""
    else
      var r := b[d..];
      assert forall j :: 0 <= j < |r| ==> r[j] == b[d + j];
      assert forall j :: 0 <= j < |r[1..]| ==> r[1..][j] == r[j + 1];
      r
  }

  predicate IsPascalFile(p: string) {
    ToLower(ExtName(p)) in PascalExtensions
  }

  /** The filter at the end of `findFiles`. */
  function PascalFiles(files: seq<string>): (r: seq<string>)
    ensures |r| <= |files|
    ensures forall f :: f in r <==> f in files && IsPascalFile(f)
  {
    if files == [] then []
    else
      var rest := PascalFiles(files[1..]);
      assert files == [files[0]] + files[1..];
      (if IsPascalFile(files[0]) then [files[0]] else []) + rest
  }

  /** The last segment of a name inside a directory is the name. */
  lemma BaseNameUnder(dir: string, name: string)
    requires dir == [] || dir[|dir| - 1] == '/'
    requires |name| >= 1 && '/' !in name
    ensures BaseName(dir + name) == name
  {
    var p := dir + name;
    assert p[|p| - 1] == name[|name| - 1];
    forall j | |dir| <= j < |p| ensures p[j] != '/' {
      assert p[j] == name[j - |dir|];
    }
    if dir != [] {
      assert p[|dir| - 1] == '/';
    }
    assert LastIndexOfChar(p, '/') == |dir| - 1;
    assert p[|dir|..] == name;
  }

  /** A last segment `stem + ext` has the extension `ext` when the stem is
      not empty and `ext` is a dot followed by no other dot. */
  lemma ExtNameOfBase(p: string, stem: string, ext: string)
    requires BaseName(p) == stem + ext && |stem| >= 1
    requires |ext| >= 2 && ext[0] == '.' && '.' !in ext[1..]
    ensures ExtName(p) == ext
  {
    var b := stem + ext;
    assert b[|stem|] == '.';
    forall j | |stem| < j < |b| ensures b[j] != '.' {
      assert b[j] == ext[1..][j - |stem| - 1];
    }
    assert LastIndexOfChar(b, '.') == |stem|;
    assert |b| >= 3;
    assert b[|stem|..] == ext;
  }

  /** A file `stem + ext` in a directory has the extension `ext`, whatever
      dots the stem holds, as long as the stem is not empty. */
  lemma ExtNameOfFile(dir: string, stem: string, ext: string)
    requires dir == [] || dir[|dir| - 1] == '/'
    requires |stem| >= 1 && '/' !in stem
    requires |ext| >= 2 && ext[0] == '.' && '.' !in ext[1..] && '/' !in ext
    ensures ExtName(dir + stem + ext) == ext
  {
    var name := stem + ext;
    assert '/' !in name by {
      assert forall c :: c in name ==> c in stem || c in ext;
    }
    assert dir + stem + ext == dir + name;
    BaseNameUnder(dir, name);
    ExtNameOfBase(dir + name, stem, ext);
  }

  /** An upper-case extension is kept: the comparison is on the
      lower-cased extension, as for `Main.PAS`. */
  lemma UpperCaseExtensionKept(dir: string, stem: string)
    requires dir == [] || dir[|dir| - 1] == '/'
    requires |stem| >= 1 && '/' !in stem
    ensures IsPascalFile(dir + stem + ".PAS")
  {
    ExtNameOfFile(dir, stem, ".PAS");
    LowerPas();
  }

  lemma LowerPas()
    ensures ToLower(".PAS") == PascalExtensions[0]
  {
    var low := ToLower(".PAS");
    assert low[1] == LowerChar('P') == 'p';
    assert low[2] == LowerChar('A') == 'a';
    assert low[3] == LowerChar('S') == 's';
  }

  /** Only the last extension counts: a backup such as `unit.pas.bak` is
      dropped. */
  lemma BackupFileDropped(dir: string, stem: string)
    requires dir == [] || dir[|dir| - 1] == '/'
    requires |stem| >= 1 && '/' !in stem
    ensures !IsPascalFile(dir + (stem + ".pas") + ".bak")
  {
    var named := stem + ".pas";
    assert '/' !in named by {
      assert forall c :: c in named ==> c in stem || c in ".pas";
    }
    ExtNameOfFile(dir, named, ".bak");
    BakIsNotPascal();
  }

  lemma BakIsNotPascal()
    ensures ToLower(".bak") !in PascalExtensions
  {
    var low := ToLower(".bak");
    assert low[1] == 'b';
  }

  /** A file whose name is just an extension, such as `.pas`, has no
      extension and is dropped. */
  lemma DotFileDropped(dir: string, ext: string)
    requires dir == [] || dir[|dir| - 1] == '/'
    requires |ext| >= 2 && ext[0] == '.' && '.' !in ext[1..] && '/' !in ext
    ensures ExtName(dir + ext) == ""
    ensures !IsPascalFile(dir + ext)
  {
    DotFileHasNoExtension(dir, ext);
    NoExtensionNotPascal(dir + ext);
  }

  lemma DotFileHasNoExtension(dir: string, ext: string)
    requires dir == [] || dir[|dir| - 1] == '/'
    requires |ext| >= 2 && ext[0] == '.' && '.' !in ext[1..] && '/' !in ext
    ensures ExtName(dir + ext) == ""
  {
    forall j | 0 < j < |ext| ensures ext[j] != '.' {
      assert ext[j] == ext[1..][j - 1];
    }
    NoDotAfterFirst(ext);
    BaseNameUnder(dir, ext);
    LeadingDotNoExtension(dir + ext);
  }

  /** A last segment whose only `.` leads it has no extension. */
  lemma LeadingDotNoExtension(p: string)
    requires LastIndexOfChar(BaseName(p), '.') <= 0
    ensures ExtName(p) == ""
  {
  }

  lemma NoDotAfterFirst(b: string)
    requires forall j :: 0 < j < |b| ==> b[j] != '.'
    ensures LastIndexOfChar(b, '.') <= 0
  {
  }

  lemma NoExtensionNotPascal(p: string)
    requires ExtName(p) == ""
    ensures !IsPascalFile(p)
  {
    assert ToLower("") == [];
    forall k | 0 <= k < |PascalExtensions| ensures PascalExtensions[k] != [] {
      assert |PascalExtensions[k]| >= 3;
    }
  }

}
