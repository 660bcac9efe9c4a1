/**
 * The configuration update of bin/init.js, as functions over the content of one tool's
 * configuration file: for each selected guide, in order, the tool's snippet is appended unless
 * the file already mentions the guide's file name. A missing file is `None`; the first append
 * creates it.
 */
module ConfigUpdate {
  import opened Wrappers
  import opened StringOps
  import opened Catalog

  /** The text of a file, a missing file reading as empty. */
  function Text(content: Option<string>): string {
    content.GetOr("")
  }

  /** `alreadyReferenced`: the file exists and its content contains the guide's file name. */
  predicate Referenced(content: Option<string>, g: Guide) {
    content.Some? && Includes(content.value, g.file)
  }

  /** `appendFileSync`: adds text at the end, creating the file if it is missing. */
  function AppendTo(content: Option<string>, text: string): (r: Option<string>)
    ensures r.Some? && Text(content) <= r.value
  {
    Some(Text(content) + text)
  }

  /** One step of the loop: skip a referenced guide, otherwise append its snippet. */
  function Step(t: Tool, content: Option<string>, g: Guide): Option<string> {
    if Referenced(content, g) then content else AppendTo(content, Ref(t, g))
  }

  /** The content after the loop over `guides`. */
  function Updated(t: Tool, content: Option<string>, guides: seq<Guide>): Option<string>
    decreases |guides|
  {
    if guides == [] then content else Updated(t, Step(t, content, guides[0]), guides[1..])
  }

  /** The guides whose snippet the loop appends, in the order it appends them. */
  function Appended(t: Tool, content: Option<string>, guides: seq<Guide>): seq<Guide>
    decreases |guides|
  {
    if guides == [] then []
    else
      var rest := Appended(t, Step(t, content, guides[0]), guides[1..]);
      if Referenced(content, guides[0]) then rest else [guides[0]] + rest
  }

  /** The snippets of `guides`, one after the other. */
  function Refs(t: Tool, guides: seq<Guide>): string
    decreases |guides|
  {
    if guides == [] then "" else Ref(t, guides[0]) + Refs(t, guides[1..])
  }

  /** The names of `guides`: what the `added` list of the loop holds. */
  function Names(guides: seq<Guide>): (r: seq<string>)
    ensures |r| == |guides|
    ensures forall i :: 0 <= i < |guides| ==> r[i] == guides[i].name
  {
    seq(|guides|, i requires 0 <= i < |guides| => guides[i].name)
  }

  /** One more guide adds its name at the end. */
  lemma NamesSnoc(guides: seq<Guide>, g: Guide)
    ensures Names(guides + [g]) == Names(guides) + [g.name]
  {
  }

  /** One iteration of the loop, seen from the functions: the first guide is handled alone. */
  lemma UnfoldAt(t: Tool, content: Option<string>, guides: seq<Guide>, i: nat)
    requires i < |guides|
    ensures Updated(t, content, guides[i..]) == Updated(t, Step(t, content, guides[i]), guides[i + 1..])
    ensures Appended(t, content, guides[i..]) ==
      (if Referenced(content, guides[i]) then [] else [guides[i]])
      + Appended(t, Step(t, content, guides[i]), guides[i + 1..])
  {
    assert guides[i..][0] == guides[i] && guides[i..][1..] == guides[i + 1..];
  }

  /**
   * The loop's invariant, stated on the functions: with `content` after the first i guides
   * and `appended` the guides appended so far, the rest of the loop completes both results.
   */
  predicate LoopAt(t: Tool, start: Option<string>, guides: seq<Guide>, i: nat,
                   content: Option<string>, appended: seq<Guide>)
    requires i <= |guides|
  {
    && Updated(t, content, guides[i..]) == Updated(t, start, guides)
    && appended + Appended(t, content, guides[i..]) == Appended(t, start, guides)
  }

  /**
   * The loop's invariant survives one iteration: after guide i the content has taken its
   * step and the guide is appended exactly when it was unreferenced.
   */
  lemma UpdateLoopStep(t: Tool, start: Option<string>, guides: seq<Guide>, i: nat,
                       content: Option<string>, appended: seq<Guide>)
    requires i < |guides|
    requires LoopAt(t, start, guides, i, content, appended)
    ensures LoopAt(t, start, guides, i + 1, Step(t, content, guides[i]),
                   if Referenced(content, guides[i]) then appended else appended + [guides[i]])
  {
    UnfoldAt(t, content, guides, i);
    if !Referenced(content, guides[i]) {
      ConcatAssoc(appended, [guides[i]], Appended(t, Step(t, content, guides[i]), guides[i + 1..]));
    }
  }

  /** Concatenation is associative. */
  lemma ConcatAssoc<T>(a: seq<T>, b: seq<T>, c: seq<T>)
    ensures a + (b + c) == (a + b) + c
  {
  }

  /** An appended snippet makes the guide referenced. */
  lemma StepReferences(t: Tool, content: Option<string>, g: Guide)
    ensures Referenced(Step(t, content, g), g)
  {
    if !Referenced(content, g) {
      RefShape(t, g);
      IncludesPrepend(Text(content), Ref(t, g), g.file);
    }
  }

  /** Appending never makes a referenced guide unreferenced. */
  lemma AppendKeepsReferenced(content: Option<string>, text: string, g: Guide)
    requires Referenced(content, g)
    ensures Referenced(AppendTo(content, text), g)
  {
    IncludesAppend(content.value, text, g.file);
  }

  /**
   * The update only appends: the new content is the old one followed by the snippets of the
   * appended guides, and nothing at all happens to the file when nothing is appended.
   */
  lemma {:induction false} UpdatedIsAppend(t: Tool, content: Option<string>, guides: seq<Guide>)
    ensures Updated(t, content, guides) ==
      if Appended(t, content, guides) == [] then content
      else Some(Text(content) + Refs(t, Appended(t, content, guides)))
    decreases |guides|
  {
    if guides != [] {
      var g := guides[0];
      var next := Step(t, content, g);
      UpdatedIsAppend(t, next, guides[1..]);
      if !Referenced(content, g) {
        var rest := Appended(t, next, guides[1..]);
        assert Refs(t, [g] + rest) == Ref(t, g) + Refs(t, rest) by {
          assert ([g] + rest)[1..] == rest;
        }
        AppendThenRest(content, Ref(t, g), Refs(t, rest), rest == []);
      }
    }
  }

  /** Appending `x` and then `more` (empty when `done`) is appending `x + more`. */
  lemma AppendThenRest(content: Option<string>, x: string, more: string, done: bool)
    requires done ==> more == ""
    ensures var next := AppendTo(content, x);
      (if done then next else Some(Text(next) + more)) == Some(Text(content) + (x + more))
  {
    var c := Text(content);
    assert Text(AppendTo(content, x)) == c + x;
    if done {
      assert x + more == x;
    } else {
      assert (c + x) + more == c + (x + more);
    }
  }

  /** The old content is always a prefix of the new content, and an existing file stays. */
  lemma UpdatedKeepsContent(t: Tool, content: Option<string>, guides: seq<Guide>)
    ensures content.Some? ==> Updated(t, content, guides).Some?
    ensures Text(content) <= Text(Updated(t, content, guides))
  {
    UpdatedIsAppend(t, content, guides);
  }

  /** A guide referenced before the update is still referenced after it. */
  lemma {:induction false} UpdatedKeepsReferenced(t: Tool, content: Option<string>, guides: seq<Guide>, g: Guide)
    requires Referenced(content, g)
    ensures Referenced(Updated(t, content, guides), g)
    decreases |guides|
  {
    if guides != [] {
      var next := Step(t, content, guides[0]);
      if !Referenced(content, guides[0]) {
        AppendKeepsReferenced(content, Ref(t, guides[0]), g);
      }
      UpdatedKeepsReferenced(t, next, guides[1..], g);
    }
  }

  /** After the update every selected guide's file name occurs in the configuration. */
  lemma {:induction false} UpdatedReferencesAll(t: Tool, content: Option<string>, guides: seq<Guide>)
    ensures forall g :: g in guides ==> Referenced(Updated(t, content, guides), g)
    decreases |guides|
  {
    if guides != [] {
      var next := Step(t, content, guides[0]);
      StepReferences(t, content, guides[0]);
      UpdatedKeepsReferenced(t, next, guides[1..], guides[0]);
      UpdatedReferencesAll(t, next, guides[1..]);
      assert forall g :: g in guides ==> g == guides[0] || g in guides[1..];
    }
  }

  /** Nothing is appended, the "no changes" report, iff every selected guide is already referenced. */
  lemma {:induction false} NothingAppendedIff(t: Tool, content: Option<string>, guides: seq<Guide>)
    ensures Appended(t, content, guides) == [] <==> forall g :: g in guides ==> Referenced(content, g)
    decreases |guides|
  {
    if guides != [] {
      NothingAppendedIff(t, content, guides[1..]);
      assert forall g :: g in guides ==> g == guides[0] || g in guides[1..];
    }
  }

  /** When every selected guide is referenced the update changes nothing. */
  lemma {:induction false} UpdatedWhenAllReferenced(t: Tool, content: Option<string>, guides: seq<Guide>)
    requires forall g :: g in guides ==> Referenced(content, g)
    ensures Updated(t, content, guides) == content
    decreases |guides|
  {
    if guides != [] {
      assert guides[0] in guides;
      assert forall g :: g in guides[1..] ==> g in guides;
      UpdatedWhenAllReferenced(t, content, guides[1..]);
    }
  }

  /** Re-running with the same selection appends nothing and leaves the file as it is. */
  lemma Idempotent(t: Tool, content: Option<string>, guides: seq<Guide>)
    ensures Appended(t, Updated(t, content, guides), guides) == []
    ensures Updated(t, Updated(t, content, guides), guides) == Updated(t, content, guides)
  {
    UpdatedReferencesAll(t, content, guides);
    NothingAppendedIff(t, Updated(t, content, guides), guides);
    UpdatedWhenAllReferenced(t, Updated(t, content, guides), guides);
  }

  /**
   * Only guides not referenced at the start are appended, each one drawn from the selection
   * in selection order.
   */
  lemma {:induction false} AppendedUnreferenced(t: Tool, content: Option<string>, guides: seq<Guide>)
    ensures forall a :: a in Appended(t, content, guides) ==> !Referenced(content, a)
    ensures Subseq(Appended(t, content, guides), guides)
    decreases |guides|
  {
    if guides != [] {
      var g := guides[0];
      var next := Step(t, content, g);
      AppendedUnreferenced(t, next, guides[1..]);
      forall a | a in Appended(t, next, guides[1..]) ensures !Referenced(content, a) {
        if Referenced(content, a) && !Referenced(content, g) {
          AppendKeepsReferenced(content, Ref(t, g), a);
        }
      }
      var rest := Appended(t, next, guides[1..]);
      if !Referenced(content, g) {
        assert ([g] + rest)[0] == g && ([g] + rest)[1..] == rest;
      } else {
        SubseqSkip(rest, guides);
      }
    }
  }

  /** Dropping the first element of the longer sequence keeps a subsequence a subsequence. */
  lemma SubseqSkip<T>(a: seq<T>, b: seq<T>)
    requires b != [] && Subseq(a, b[1..])
    ensures Subseq(a, b)
  {
  }

  /** No two entries name the same guide file. */
  predicate DistinctFiles(s: seq<Guide>) {
    forall i, j :: 0 <= i < j < |s| ==> s[i].file != s[j].file
  }

  /** Putting a guide in front of distinct others whose files differ from its own keeps them distinct. */
  lemma DistinctFilesCons(g: Guide, rest: seq<Guide>)
    requires DistinctFiles(rest)
    requires forall a :: a in rest ==> a.file != g.file
    ensures DistinctFiles([g] + rest)
  {
    var all := [g] + rest;
    forall i, j | 0 <= i < j < |all| ensures all[i].file != all[j].file {
      assert all[j] == rest[j - 1];
      if i > 0 {
        assert all[i] == rest[i - 1];
      } else {
        assert rest[j - 1] in rest;
      }
    }
  }

  /**
   * No two appended snippets are for the same file name: a guide listed twice in one
   * selection is appended once.
   */
  lemma {:induction false} AppendedOnce(t: Tool, content: Option<string>, guides: seq<Guide>)
    ensures DistinctFiles(Appended(t, content, guides))
    decreases |guides|
  {
    if guides != [] {
      var g := guides[0];
      var next := Step(t, content, g);
      AppendedOnce(t, next, guides[1..]);
      if !Referenced(content, g) {
        var rest := Appended(t, next, guides[1..]);
        StepReferences(t, content, g);
        AppendedUnreferenced(t, next, guides[1..]);
        assert forall a :: a in rest ==> a.file != g.file;
        DistinctFilesCons(g, rest);
      }
    }
  }
}
