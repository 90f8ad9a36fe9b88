/** All-or-nothing text edits over a file tree, with restore (scripts/bump.py `apply_edits`,
    `restore` and `finish`, lines 102-133 and 332-340). */
module BumpEdits {

  newtype Byte = b: int | 0 <= b < 256

  type Bytes = seq<Byte>

  const LF: Byte := 10
  const CR: Byte := 13

  datatype Edit = Edit(path: string, old_: Bytes, new_: Bytes, count: nat)

  datatype Error = CannotRead(path: string) | NothingWritten(problems: seq<nat>)

  type Tree = map<string, Bytes>

  datatype Outcome = Applied(original: Tree) | Refused(error: Error)

  // ----- bytes.count and bytes.replace -------------------------------------------------------

  /** Non-overlapping occurrences, scanned left to right; an empty pattern occurs around every byte. */
  function Count(data: Bytes, pat: Bytes): nat {
    if pat == [] then |data| + 1
    else if data == [] then 0
    else if pat <= data then 1 + Count(data[|pat|..], pat)
    else Count(data[1..], pat)
  }

  function Replace(data: Bytes, pat: Bytes, with: Bytes): Bytes
    decreases |data|
  {
    if pat == [] then
      if data == [] then with else with + [data[0]] + Replace(data[1..], pat, with)
    else if data == [] then []
    else if pat <= data then with + Replace(data[|pat|..], pat, with)
    else [data[0]] + Replace(data[1..], pat, with)
  }

  /** Each occurrence changes the length by the difference of pattern and replacement. */
  lemma {:induction false} ReplaceLength(data: Bytes, pat: Bytes, with: Bytes)
    ensures |Replace(data, pat, with)| == |data| + Count(data, pat) * (|with| - |pat|)
    decreases |data|
  {
    var d := |with| - |pat|;
    if data != [] {
      if pat == [] {
        ReplaceLength(data[1..], pat, with);
        Distribute(|data|, d);
      } else if pat <= data {
        ReplaceLength(data[|pat|..], pat, with);
        Distribute(Count(data[|pat|..], pat), d);
      } else {
        ReplaceLength(data[1..], pat, with);
      }
    }
  }

  lemma {:induction false} Distribute(n: nat, d: int)
    ensures (n + 1) * d == n * d + d
  {
  }

  // ----- one edit ----------------------------------------------------------------------------

  predicate HasCrlf(data: Bytes) {
    Count(data, [CR, LF]) > 0
  }

  /** `text.replace("\n", newline)` for the newline style the file already has. */
  function Styled(text: Bytes, data: Bytes): Bytes {
    Replace(text, [LF], if HasCrlf(data) then [CR, LF] else [LF])
  }

  function Found(data: Bytes, e: Edit): nat {
    Count(data, Styled(e.old_, data))
  }

  function Edited(data: Bytes, e: Edit): Bytes {
    Replace(data, Styled(e.old_, data), Styled(e.new_, data))
  }

  lemma {:induction false} EditLength(data: Bytes, e: Edit)
    requires Found(data, e) == e.count
    ensures |Edited(data, e)| == |data| + e.count * (|Styled(e.new_, data)| - |Styled(e.old_, data)|)
  {
    ReplaceLength(data, Styled(e.old_, data), Styled(e.new_, data));
  }

  // ----- the edits of one file, left to right -------------------------------------------------

  /** The file at `path` after all edits addressed to it, in order. */
  function FileAfter(data: Bytes, path: string, edits: seq<Edit>): Bytes {
    if edits == [] then data
    else
      var prev, last := FileAfter(data, path, edits[..|edits| - 1]), edits[|edits| - 1];
      if last.path == path then Edited(prev, last) else prev
  }

  /** Every edit finds its text the expected number of times in the file as edited so far. */
  predicate AllMatch(tree: Tree, edits: seq<Edit>)
    requires Readable(tree, edits)
  {
    edits == [] ||
    var init, last := edits[..|edits| - 1], edits[|edits| - 1];
    AllMatch(tree, init) && Found(FileAfter(tree[last.path], last.path, init), last) == last.count
  }

  predicate Readable(tree: Tree, edits: seq<Edit>) {
    forall i :: 0 <= i < |edits| ==> edits[i].path in tree
  }

  function Touched(edits: seq<Edit>): set<string> {
    set i | 0 <= i < |edits| :: edits[i].path
  }

  /** The tree with every touched file replaced by the result of its own edits. */
  function TreeAfter(tree: Tree, edits: seq<Edit>): Tree {
    map p | p in tree :: FileAfter(tree[p], p, edits)
  }

  lemma {:induction false} UntouchedFile(data: Bytes, path: string, edits: seq<Edit>)
    requires path !in Touched(edits)
    ensures FileAfter(data, path, edits) == data
  {
    if edits != [] {
      assert edits[|edits| - 1].path in Touched(edits);
      assert Touched(edits[..|edits| - 1]) <= Touched(edits);
      UntouchedFile(data, path, edits[..|edits| - 1]);
    }
  }

  /** The size of a file changes by the sum over its edits of count * (|new| - |old|), as encoded. */
  function SizeChange(data: Bytes, path: string, edits: seq<Edit>): int {
    if edits == [] then 0
    else
      var init, last := edits[..|edits| - 1], edits[|edits| - 1];
      var now := FileAfter(data, path, init);
      SizeChange(data, path, init)
        + if last.path == path then last.count * (|Styled(last.new_, now)| - |Styled(last.old_, now)|) else 0
  }

  lemma {:induction false} FileSize(tree: Tree, path: string, edits: seq<Edit>)
    requires Readable(tree, edits) && AllMatch(tree, edits) && path in tree
    ensures |FileAfter(tree[path], path, edits)| == |tree[path]| + SizeChange(tree[path], path, edits)
  {
    if edits != [] {
      var init, last := edits[..|edits| - 1], edits[|edits| - 1];
      FileSize(tree, path, init);
      if last.path == path {
        EditLength(FileAfter(tree[path], path, init), last);
      }
    }
  }

  // ----- the working tree --------------------------------------------------------------------

  /** Pending bytes after the first n edits: one entry for each file touched so far. */
  ghost predicate PendingIs(tree: Tree, edits: seq<Edit>, n: nat, pending: Tree, original: Tree)
    requires n <= |edits|
  {
    && pending.Keys == original.Keys == Touched(edits[..n])
    && (forall p :: p in pending ==> p in tree && original[p] == tree[p])
    && (forall p :: p in pending ==> p in tree && pending[p] == FileAfter(tree[p], p, edits[..n]))
  }

  lemma {:induction false} PendingStep(tree: Tree, edits: seq<Edit>, n: nat, pending: Tree, original: Tree)
    requires n < |edits| && PendingIs(tree, edits, n, pending, original) && edits[n].path in tree
    ensures var e := edits[n];
            var data := FileAfter(tree[e.path], e.path, edits[..n]);
            && (e.path in pending ==> pending[e.path] == data)
            && (e.path !in pending ==> tree[e.path] == data)
            && PendingIs(tree, edits, n + 1, pending[e.path := Edited(data, e)], original[e.path := tree[e.path]])
  {
    var e := edits[n];
    assert edits[..n + 1][..n] == edits[..n];
    assert Touched(edits[..n + 1]) == Touched(edits[..n]) + {e.path} by {
      assert edits[..n + 1][n] == e;
      assert forall i :: 0 <= i < n ==> edits[..n + 1][i] == edits[..n][i];
    }
    if e.path !in pending {
      UntouchedFile(tree[e.path], e.path, edits[..n]);
    }
  }

  /** The state of `apply_edits` after n edits: all read, and a problem noted for each miss. */
  ghost predicate Staged(tree: Tree, edits: seq<Edit>, n: nat, pending: Tree, original: Tree, problems: seq<nat>)
    requires n <= |edits|
  {
    && Readable(tree, edits[..n]) && PendingIs(tree, edits, n, pending, original)
    && (problems == [] <==> AllMatch(tree, edits[..n]))
  }

  lemma {:induction false} StagedStep(tree: Tree, edits: seq<Edit>, n: nat, pending: Tree, original: Tree, problems: seq<nat>)
    requires n < |edits| && Staged(tree, edits, n, pending, original, problems)
    requires edits[n].path in pending || edits[n].path in tree
    ensures edits[n].path in tree
    ensures var e := edits[n];
            var data := if e.path in pending then pending[e.path] else tree[e.path];
            Staged(tree, edits, n + 1, pending[e.path := Edited(data, e)],
                   if e.path in pending then original else original[e.path := data],
                   problems + if Found(data, e) == e.count then [] else [n])
  {
    var e := edits[n];
    PendingStep(tree, edits, n, pending, original);
    assert edits[..n + 1][..n] == edits[..n];
    assert e.path in pending ==> original[e.path := tree[e.path]] == original;
  }

  /** Writing the final pending bytes gives the edited tree. */
  lemma {:induction false} PendingIsTree(tree: Tree, edits: seq<Edit>, pending: Tree, original: Tree)
    requires PendingIs(tree, edits, |edits|, pending, original)
    ensures tree + pending == TreeAfter(tree, edits)
  {
    assert edits[..|edits|] == edits;
    forall p | p in tree && p !in pending ensures FileAfter(tree[p], p, edits) == tree[p] {
      UntouchedFile(tree[p], p, edits);
    }
  }

  class WorkingTree {
    var files: Tree

    constructor (files: Tree)
      ensures this.files == files
    {
      this.files := files;
    }

    /** Apply all edits or none. A refusal leaves every file as it was; a success rewrites exactly
        the touched files, each to the left-to-right result of its own edits, and hands back their
        original bytes. */
    method ApplyEdits(edits: seq<Edit>, write: bool) returns (outcome: Outcome)
      modifies this
      ensures outcome.Applied? <==> Readable(old(files), edits) && AllMatch(old(files), edits)
      ensures outcome.Refused? || !write ==> files == old(files)
      ensures outcome.Applied? && write ==> files == TreeAfter(old(files), edits)
      ensures outcome.Applied? ==> outcome.original.Keys == Touched(edits)
                                   && forall p :: p in outcome.original ==> p in old(files) && outcome.original[p] == old(files)[p]
      ensures outcome.Refused? ==> (outcome.error.CannotRead? <==> !Readable(old(files), edits))
    {
      var original: Tree, pending: Tree := map[], map[];
      var problems: seq<nat> := [];
      for n := 0 to |edits|
        invariant files == old(files) && Staged(files, edits, n, pending, original, problems)
      {
        var edit := edits[n];
        if edit.path !in pending && edit.path !in files {
          return Refused(CannotRead(edit.path));
        }
        StagedStep(files, edits, n, pending, original, problems);
        var ok;
        original, pending, ok := Stage(edit, original, pending);
        problems := problems + if ok then [] else [n];
      }
      assert edits[..|edits|] == edits;
      if problems != [] {
        return Refused(NothingWritten(problems));
      }
      if write {
        WriteBack(pending);
        PendingIsTree(old(files), edits, pending, original);
      }
      outcome := Applied(original);
    }

    /** One edit on the pending bytes: read the file if it is new, count, replace. */
    method Stage(edit: Edit, original: Tree, pending: Tree) returns (original': Tree, pending': Tree, ok: bool)
      requires edit.path in pending || edit.path in files
      ensures var data := if edit.path in pending then pending[edit.path] else files[edit.path];
              && pending' == pending[edit.path := Edited(data, edit)]
              && original' == (if edit.path in pending then original else original[edit.path := data])
              && (ok <==> Found(data, edit) == edit.count)
    {
      original', pending' := original, pending;
      if edit.path !in pending {
        original' := original[edit.path := files[edit.path]];
        pending' := pending[edit.path := files[edit.path]];
      }
      var data := pending'[edit.path];
      var newline := if HasCrlf(data) then [CR, LF] else [LF];
      var old_, new_ := Replace(edit.old_, [LF], newline), Replace(edit.new_, [LF], newline);
      ok := Count(data, old_) == edit.count;
      pending' := pending'[edit.path := Replace(data, old_, new_)];
    }

    /** `restore`, and the write-back of `apply_edits`: write every listed file. */
    method WriteBack(contents: Tree)
      modifies this
      ensures files == old(files) + contents
    {
      var left := contents.Keys;
      while left != {}
        invariant left <= contents.Keys
        invariant files == old(files) + (map p | p in contents && p !in left :: contents[p])
        decreases left
      {
        var p :| p in left;
        left := left - {p};
        files := files[p := contents[p]];
      }
    }

    /** `finish` up to the pull request: when the lock check fails the tree is as it was before. */
    method Finish(edits: seq<Edit>, lockCheckPasses: bool) returns (outcome: Outcome)
      modifies this
      ensures outcome.Refused? || !lockCheckPasses ==> files == old(files)
      ensures outcome.Applied? && lockCheckPasses ==> files == TreeAfter(old(files), edits)
      ensures outcome.Applied? <==> Readable(old(files), edits) && AllMatch(old(files), edits)
    {
      outcome := ApplyEdits(edits, true);
      if outcome.Applied? && !lockCheckPasses {
        ghost var edited := files;
        WriteBack(outcome.original);
        RestoreUndoes(old(files), edits, outcome.original);
      }
    }
  }

  /** Writing the returned originals back undoes every edit. */
  lemma {:induction false} RestoreUndoes(tree: Tree, edits: seq<Edit>, original: Tree)
    requires original.Keys == Touched(edits) && forall p :: p in original ==> p in tree && original[p] == tree[p]
    ensures TreeAfter(tree, edits) + original == tree
  {
    forall p | p in tree && p !in original ensures FileAfter(tree[p], p, edits) == tree[p] {
      UntouchedFile(tree[p], p, edits);
    }
  }

  // ----- newline style -----------------------------------------------------------------------

  ghost predicate NoCr(text: Bytes) {
    CR !in text
  }

  /** The CRLF form of an LF text. */
  function Expand(text: Bytes): Bytes {
    if text == [] then []
    else (if text[0] == LF then [CR, LF] else [text[0]]) + Expand(text[1..])
  }

  lemma {:induction false} ExpandIsReplace(text: Bytes)
    ensures Replace(text, [LF], [CR, LF]) == Expand(text)
    ensures Replace(text, [LF], [LF]) == text
  {
    if text != [] {
      ExpandIsReplace(text[1..]);
      assert [LF] <= text <==> text[0] == LF;
    }
  }

  lemma {:induction false} ExpandConcat(a: Bytes, b: Bytes)
    ensures Expand(a + b) == Expand(a) + Expand(b)
  {
    if a == [] {
      assert a + b == b;
    } else {
      assert (a + b)[1..] == a[1..] + b;
      ExpandConcat(a[1..], b);
    }
  }

  lemma {:induction false} ExpandHead(text: Bytes)
    requires NoCr(text) && text != []
    ensures Expand(text) != [] && Expand(text)[0] != LF
  {
  }

  /** Occurrences at the start are the same occurrences. */
  lemma {:induction false} ExpandPrefix(text: Bytes, pat: Bytes)
    requires NoCr(text) && NoCr(pat)
    ensures Expand(pat) <= Expand(text) <==> pat <= text
  {
    if pat != [] && text != [] {
      var p, t := pat[1..], text[1..];
      ExpandPrefix(t, p);
      assert pat == [pat[0]] + p && text == [text[0]] + t;
      var hp, ht := if pat[0] == LF then [CR, LF] else [pat[0]], if text[0] == LF then [CR, LF] else [text[0]];
      if pat[0] == text[0] {
        SharedHead(hp, Expand(p), Expand(t));
      } else {
        assert Expand(pat)[0] == hp[0] && Expand(text)[0] == ht[0];
        assert CR !in text && CR !in pat;
      }
    } else if pat != [] {
      ExpandHead(pat);
    }
  }

  lemma {:induction false} SharedHead(h: Bytes, a: Bytes, b: Bytes)
    ensures h + a <= h + b <==> a <= b
  {
    if h + a <= h + b {
      assert a == (h + a)[|h|..] && b == (h + b)[|h|..];
    }
  }

  lemma {:induction false} ExpandDrop(text: Bytes, pat: Bytes)
    requires pat <= text
    ensures Expand(pat) <= Expand(text) && Expand(text)[|Expand(pat)|..] == Expand(text[|pat|..])
  {
    assert text == pat + text[|pat|..];
    ExpandConcat(pat, text[|pat|..]);
  }

  /** Between CR and LF no occurrence of an expanded pattern can start, so scanning the CRLF text
      meets exactly the occurrences of the LF text. */
  lemma {:induction false} ScanExpanded(text: Bytes, pat: Bytes, with: Bytes)
    requires NoCr(text) && NoCr(pat) && pat != []
    ensures Count(Expand(text), Expand(pat)) == Count(text, pat)
    ensures Replace(Expand(text), Expand(pat), Expand(with)) == Expand(Replace(text, pat, with))
    decreases |text|
  {
    ExpandHead(pat);
    if text != [] {
      ExpandHead(text);
      ExpandPrefix(text, pat);
      if pat <= text {
        ExpandDrop(text, pat);
        ScanExpanded(text[|pat|..], pat, with);
        ExpandConcat(with, Replace(text[|pat|..], pat, with));
      } else {
        var rest := text[1..];
        ScanExpanded(rest, pat, with);
        assert Replace(text, pat, with) == [text[0]] + Replace(rest, pat, with);
        ExpandConcat([text[0]], Replace(rest, pat, with));
        assert [text[0]][1..] == [];
        if text[0] == LF {
          SkipCrLf(Expand(rest), Expand(pat), Expand(with));
        } else {
          assert Expand(text)[1..] == Expand(rest);
        }
      }
    }
  }

  lemma {:induction false} SkipCrLf(rest: Bytes, pat: Bytes, with: Bytes)
    requires pat != [] && pat[0] != LF && !(pat <= [CR, LF] + rest)
    ensures Count([CR, LF] + rest, pat) == Count(rest, pat)
    ensures Replace([CR, LF] + rest, pat, with) == [CR, LF] + Replace(rest, pat, with)
  {
  }

  lemma {:induction false} CrlfFound(text: Bytes)
    requires NoCr(text)
    ensures HasCrlf(Expand(text)) <==> LF in text
    ensures !HasCrlf(text)
  {
    ExpandIsReplace([LF]);
    assert [LF][1..] == [];
    assert Expand([LF]) == [CR, LF];
    ScanExpanded(text, [LF], []);
    CountPositive(text);
    NoCrNoCrlf(text);
  }

  lemma {:induction false} CountPositive(text: Bytes)
    ensures Count(text, [LF]) > 0 <==> LF in text
  {
    if text != [] {
      CountPositive(text[1..]);
      assert [LF] <= text <==> text[0] == LF;
      assert text == [text[0]] + text[1..];
    }
  }

  lemma {:induction false} NoCrNoCrlf(text: Bytes)
    requires NoCr(text)
    ensures Count(text, [CR, LF]) == 0
  {
    if text != [] {
      NoCrNoCrlf(text[1..]);
      assert text[0] in text && text[0] != CR;
    }
  }

  ghost predicate PlainEdit(e: Edit) {
    NoCr(e.old_) && NoCr(e.new_) && e.old_ != []
  }

  /** An edit of a CRLF file is the CRLF form of the same edit of the LF file. */
  lemma {:induction false} EditCommutes(text: Bytes, e: Edit)
    requires NoCr(text) && LF in text && PlainEdit(e)
    ensures Found(Expand(text), e) == Found(text, e)
    ensures Edited(Expand(text), e) == Expand(Edited(text, e))
  {
    CrlfFound(text);
    ExpandIsReplace(e.old_);
    ExpandIsReplace(e.new_);
    ScanExpanded(text, e.old_, e.new_);
  }

  lemma {:induction false} ReplaceKeepsNoCr(data: Bytes, pat: Bytes, with: Bytes)
    requires NoCr(data) && NoCr(with) && pat != []
    ensures NoCr(Replace(data, pat, with))
    decreases |data|
  {
    if data != [] {
      if pat <= data {
        ReplaceKeepsNoCr(data[|pat|..], pat, with);
      } else {
        ReplaceKeepsNoCr(data[1..], pat, with);
      }
    }
  }

  /** The LF file still has a line break before each of its edits. */
  ghost predicate KeepsNewline(text: Bytes, path: string, edits: seq<Edit>) {
    forall n {:trigger FileAfter(text, path, edits[..n])} :: 0 <= n < |edits| ==> LF in FileAfter(text, path, edits[..n])
  }

  /** A CRLF checkout and an LF checkout of the same file stay the same text through any edits: the
      line endings are kept, and reading the file back with CRLF folded gives the LF result. */
  lemma {:induction false} CheckoutsAgree(text: Bytes, path: string, edits: seq<Edit>)
    requires NoCr(text) && KeepsNewline(text, path, edits)
    requires forall i :: 0 <= i < |edits| ==> PlainEdit(edits[i])
    ensures NoCr(FileAfter(text, path, edits))
    ensures FileAfter(Expand(text), path, edits) == Expand(FileAfter(text, path, edits))
    ensures Replace(FileAfter(Expand(text), path, edits), [CR, LF], [LF]) == FileAfter(text, path, edits)
  {
    if edits != [] {
      var init, last := edits[..|edits| - 1], edits[|edits| - 1];
      forall n | 0 <= n < |init| ensures LF in FileAfter(text, path, init[..n]) {
        assert init[..n] == edits[..n];
        assert LF in FileAfter(text, path, edits[..n]);
      }
      CheckoutsAgree(text, path, init);
      var now := FileAfter(text, path, init);
      assert LF in FileAfter(text, path, edits[..|edits| - 1]);
      if last.path == path {
        EditCommutes(now, last);
        CrlfFound(now);
        ExpandIsReplace(last.old_);
        ExpandIsReplace(last.new_);
        ReplaceKeepsNoCr(now, last.old_, last.new_);
      }
    }
    FoldExpanded(FileAfter(text, path, edits));
  }

  /** Folding CRLF back to LF (`read_text`) inverts the expansion. */
  lemma {:induction false} FoldExpanded(text: Bytes)
    requires NoCr(text)
    ensures Replace(Expand(text), [CR, LF], [LF]) == text
  {
    if text != [] {
      FoldExpanded(text[1..]);
      if text[0] == LF {
        assert Expand(text)[2..] == Expand(text[1..]);
        assert [CR, LF] <= Expand(text);
      } else {
        assert text[0] in text;
        assert Expand(text)[1..] == Expand(text[1..]);
      }
    }
  }
}
