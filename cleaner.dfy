/** `clean_and_chunk` (cleaner.py): the prose of an article split into
    paragraphs on blank lines, short paragraphs dropped, and the rest packed
    greedily, whole, into chunks of bounded length.

    The HTML side (removing script, style, nav, footer, header, aside and
    noscript elements and taking the text with blank lines between
    elements) is a parameter `extractText`; the model starts from the flat
    text it returns. */
module Cleaner {
  import opened Text
  import Dedup

  /** The separator used both to split the text and to join a chunk's paragraphs. */
  const PARAGRAPH_BREAK: string := "\n\n"
  /** Default `min_length`. */
  const MIN_LENGTH: int := 50
  /** Default `max_chunk_len`. */
  const MAX_CHUNK_LEN: int := 1000

  /** Every item is a non-empty stripped paragraph. */
  predicate AllParagraphs(ps: seq<string>) {
    forall j | 0 <= j < |ps| :: ps[j] != "" && Stripped(ps[j])
  }

  /** `[p.strip() for p in pieces if p.strip()]` */
  function NonBlank(pieces: seq<string>): (ps: seq<string>)
    ensures AllParagraphs(ps)
    ensures |ps| <= |pieces|
  {
    if pieces == [] then []
    else
      var p := Strip(pieces[0]);
      var rest := NonBlank(pieces[1..]);
      if p == "" then rest
      else
        ParagraphsCons(p, rest);
        [p] + rest
  }

  /** A non-empty stripped paragraph in front of paragraphs keeps them paragraphs. */
  lemma ParagraphsCons(p: string, rest: seq<string>)
    requires p != "" && Stripped(p) && AllParagraphs(rest)
    ensures AllParagraphs([p] + rest)
  {
    forall j | 0 <= j < |[p] + rest| ensures ([p] + rest)[j] != "" && Stripped(([p] + rest)[j]) {
      if j > 0 {
        assert ([p] + rest)[j] == rest[j - 1];
      }
    }
  }

  /** Dropping blank pieces works piece by piece and keeps their order:
      filtering a concatenation filters each part, and one piece gives its
      stripped text exactly when that is not empty. */
  lemma {:induction false} NonBlankSelects(a: seq<string>, b: seq<string>, x: string)
    decreases |a|
    ensures NonBlank(a + b) == NonBlank(a) + NonBlank(b)
    ensures NonBlank([x]) == if Strip(x) == "" then [] else [Strip(x)]
  {
    assert [x][1..] == [];
    if a == [] {
      assert a + b == b;
    } else {
      assert (a + b)[0] == a[0] && (a + b)[1..] == a[1..] + b;
      NonBlankSelects(a[1..], b, x);
      var head := if Strip(a[0]) == "" then [] else [Strip(a[0])];
      Dedup.ConcatAssoc(head, NonBlank(a[1..]), NonBlank(b));
    }
  }

  /** The surviving paragraphs are the long enough ones among the
      stripped non-blank pieces, in their order: none is invented or
      moved, and none long enough is lost. */
  lemma ValidParagraphsSelects(text: string, minLength: int)
    ensures Dedup.IsSubsequence(ValidParagraphs(text, minLength), Paragraphs(text))
    ensures forall k | 0 <= k < |Paragraphs(text)| && |Paragraphs(text)[k]| >= minLength ::
      Paragraphs(text)[k] in ValidParagraphs(text, minLength)
  {
    LongEnoughSubsequence(Paragraphs(text), minLength);
  }

  /** The paragraphs of the flat text: its blank-line-separated pieces, stripped, empty ones dropped. */
  function Paragraphs(text: string): seq<string> {
    NonBlank(Split(text, PARAGRAPH_BREAK))
  }

  /** `[p for p in ps if len(p) >= min_length]` */
  function LongEnough(ps: seq<string>, minLength: int): (r: seq<string>)
    ensures forall i | 0 <= i < |r| :: |r[i]| >= minLength
    ensures forall i | 0 <= i < |r| :: r[i] in ps
    ensures forall i | 0 <= i < |ps| && |ps[i]| >= minLength :: ps[i] in r
  {
    if ps == [] then []
    else (if |ps[0]| >= minLength then [ps[0]] else []) + LongEnough(ps[1..], minLength)
  }

  /** The length filter works paragraph by paragraph and keeps their order:
      filtering a concatenation filters each part, and one paragraph is
      kept exactly when it is long enough. */
  lemma {:induction false} LongEnoughSelects(a: seq<string>, b: seq<string>, x: string, minLength: int)
    decreases |a|
    ensures LongEnough(a + b, minLength) == LongEnough(a, minLength) + LongEnough(b, minLength)
    ensures LongEnough([x], minLength) == if |x| >= minLength then [x] else []
  {
    assert [x][1..] == [];
    if a == [] {
      assert a + b == b;
    } else {
      assert (a + b)[0] == a[0] && (a + b)[1..] == a[1..] + b;
      LongEnoughSelects(a[1..], b, x, minLength);
      var head := if |a[0]| >= minLength then [a[0]] else [];
      Dedup.ConcatAssoc(head, LongEnough(a[1..], minLength), LongEnough(b, minLength));
    }
  }

  /** The length filter keeps the paragraphs in their order and invents none. */
  lemma {:induction false} LongEnoughSubsequence(ps: seq<string>, minLength: int)
    decreases |ps|
    ensures Dedup.IsSubsequence(LongEnough(ps, minLength), ps)
  {
    if ps != [] {
      var rest := LongEnough(ps[1..], minLength);
      LongEnoughSubsequence(ps[1..], minLength);
      if |ps[0]| >= minLength {
        assert ([ps[0]] + rest)[0] == ps[0] && ([ps[0]] + rest)[1..] == rest;
      } else {
        assert [] + rest == rest;
        if rest != [] {
          assert Dedup.IsSubsequence(rest, ps[1..]);
        }
      }
    }
  }

  /** The paragraphs that survive the length filter: stripped, non-empty
      and at least `minLength` long. */
  function ValidParagraphs(text: string, minLength: int): (valid: seq<string>)
    ensures forall j | 0 <= j < |valid| :: valid[j] != "" && Stripped(valid[j]) && |valid[j]| >= minLength
  {
    var paragraphs := Paragraphs(text);
    var valid := LongEnough(paragraphs, minLength);
    forall j | 0 <= j < |valid| ensures valid[j] != "" && Stripped(valid[j]) {
      var k :| 0 <= k < |paragraphs| && paragraphs[k] == valid[j];
      assert AllParagraphs(paragraphs);
    }
    valid
  }

  /** The greedy packing, with `cur` the paragraphs of the chunk being built
      and `rest` those still to place: a paragraph starts a new chunk exactly
      when the chunk being built is non-empty and adding the separator and
      the paragraph would take it past `maxLen`. */
  function GroupsFrom(cur: seq<string>, rest: seq<string>, maxLen: int): seq<seq<string>>
    decreases |rest|
  {
    if rest == [] then (if cur == [] then [] else [cur])
    else if cur != [] && |Join(cur, PARAGRAPH_BREAK)| + |rest[0]| + 2 > maxLen then
      [cur] + GroupsFrom([rest[0]], rest[1..], maxLen)
    else GroupsFrom(cur + [rest[0]], rest[1..], maxLen)
  }

  /** The paragraphs of each chunk. */
  function Groups(ps: seq<string>, maxLen: int): seq<seq<string>> {
    GroupsFrom([], ps, maxLen)
  }

  /** Each group joined into the text of its chunk. */
  function Joined(gs: seq<seq<string>>): (cs: seq<string>)
    ensures |cs| == |gs|
    ensures forall i | 0 <= i < |gs| :: cs[i] == Join(gs[i], PARAGRAPH_BREAK)
  {
    if gs == [] then [] else [Join(gs[0], PARAGRAPH_BREAK)] + Joined(gs[1..])
  }

  function Flatten(gs: seq<seq<string>>): seq<string> {
    if gs == [] then [] else gs[0] + Flatten(gs[1..])
  }

  /** What `clean_and_chunk` returns for the flat text of a non-empty document. */
  function Chunks(text: string, minLength: int, maxLen: int): seq<string> {
    var valid := ValidParagraphs(text, minLength);
    if valid == [] then [] else Joined(Groups(valid, maxLen))
  }

  /** `clean_and_chunk(html, min_length, max_chunk_len)`, with the HTML
      clean-up and text extraction abstracted as `extractText`. */
  method CleanAndChunk(html: string, extractText: string -> string, minLength: int, maxChunkLen: int)
    returns (chunks: seq<string>)
    ensures chunks == if html == "" then [] else Chunks(extractText(html), minLength, maxChunkLen)
  {
    if html == "" {
      return [];
    }
    var text := extractText(html);
    var valid := ValidParagraphs(text, minLength);
    if valid == [] {
      return [];
    }
    chunks := Pack(valid, maxChunkLen);
  }

  /** The packing loop of `clean_and_chunk`: `current` is the chunk being
      built, flushed (stripped) when the next paragraph does not fit and once
      more at the end. */
  method Pack(valid: seq<string>, maxChunkLen: int) returns (chunks: seq<string>)
    requires AllParagraphs(valid)
    ensures chunks == Joined(Groups(valid, maxChunkLen))
  {
    chunks := [];
    var current := "";
    ghost var group: seq<string> := [];
    var i := 0;
    while i < |valid|
      invariant 0 <= i <= |valid|
      invariant current == Join(group, PARAGRAPH_BREAK)
      invariant (current == "") == (group == [])
      invariant Stripped(current)
      invariant PackState(valid, maxChunkLen, chunks, group, i)
    {
      var paragraph := valid[i];
      assert paragraph != "" && Stripped(paragraph);
      if current != "" && |current| + |paragraph| + 2 > maxChunkLen {
        StripStripped(current);
        FlushStep(valid, maxChunkLen, chunks, group, i);
        chunks := chunks + [Strip(current)];
        current := paragraph;
        group := [paragraph];
      } else {
        ExtendStep(valid, maxChunkLen, chunks, group, i);
        if current != "" {
          JoinSnoc(group, paragraph, PARAGRAPH_BREAK);
          StrippedJoin2(current, paragraph);
          current := current + PARAGRAPH_BREAK + paragraph;
        } else {
          current := paragraph;
        }
        group := group + [paragraph];
      }
      i := i + 1;
    }
    PackEnd(valid, maxChunkLen, chunks, group, i);
    StripStripped(current);
    if Strip(current) != "" {
      chunks := chunks + [Strip(current)];
    }
  }

  /** The packing loop's invariant: the chunks flushed so far, followed by
      the chunks that the group being built and the paragraphs from `i` on
      make, are the chunks of all the paragraphs. */
  ghost predicate PackState(valid: seq<string>, maxLen: int, chunks: seq<string>, group: seq<string>, i: int) {
    0 <= i <= |valid| && chunks + Joined(GroupsFrom(group, valid[i..], maxLen)) == Joined(Groups(valid, maxLen))
  }

  /** A paragraph that does not fit flushes the group being built. */
  lemma FlushStep(valid: seq<string>, maxLen: int, chunks: seq<string>, group: seq<string>, i: int)
    requires 0 <= i < |valid| && PackState(valid, maxLen, chunks, group, i)
    requires group != [] && |Join(group, PARAGRAPH_BREAK)| + |valid[i]| + 2 > maxLen
    ensures PackState(valid, maxLen, chunks + [Join(group, PARAGRAPH_BREAK)], [valid[i]], i + 1)
  {
    SliceCons(valid, i);
    GroupsSplit(group, valid[i], valid[i + 1..], maxLen);
    var c, rest := [Join(group, PARAGRAPH_BREAK)], Joined(GroupsFrom([valid[i]], valid[i + 1..], maxLen));
    assert chunks + (c + rest) == (chunks + c) + rest;
  }

  /** A paragraph that fits, or the first one, joins the group being built. */
  lemma ExtendStep(valid: seq<string>, maxLen: int, chunks: seq<string>, group: seq<string>, i: int)
    requires 0 <= i < |valid| && PackState(valid, maxLen, chunks, group, i)
    requires !(group != [] && |Join(group, PARAGRAPH_BREAK)| + |valid[i]| + 2 > maxLen)
    ensures PackState(valid, maxLen, chunks, group + [valid[i]], i + 1)
  {
    SliceCons(valid, i);
    GroupsExtend(group, valid[i], valid[i + 1..], maxLen);
  }

  /** After the last paragraph only the group being built is left. */
  lemma PackEnd(valid: seq<string>, maxLen: int, chunks: seq<string>, group: seq<string>, i: int)
    requires i == |valid| && PackState(valid, maxLen, chunks, group, i)
    ensures Joined(Groups(valid, maxLen)) == if group == [] then chunks else chunks + [Join(group, PARAGRAPH_BREAK)]
  {
    assert valid[i..] == [];
    if group == [] {
      assert chunks + [] == chunks;
    }
  }

  lemma SliceCons(xs: seq<string>, i: int)
    requires 0 <= i < |xs|
    ensures xs[i..] == [xs[i]] + xs[i + 1..]
  {
  }

  /** Two non-empty stripped paragraphs joined by a blank line form a stripped text. */
  lemma StrippedJoin2(a: string, b: string)
    requires a != "" && b != "" && Stripped(a) && Stripped(b)
    ensures Stripped(a + PARAGRAPH_BREAK + b)
  {
    var c := a + PARAGRAPH_BREAK + b;
    assert c[0] == a[0] && c[|c| - 1] == b[|b| - 1];
  }

  /** A paragraph that does not fit closes the chunk being built. */
  lemma GroupsSplit(cur: seq<string>, p: string, rest: seq<string>, maxLen: int)
    requires cur != [] && |Join(cur, PARAGRAPH_BREAK)| + |p| + 2 > maxLen
    ensures Joined(GroupsFrom(cur, [p] + rest, maxLen)) == [Join(cur, PARAGRAPH_BREAK)] + Joined(GroupsFrom([p], rest, maxLen))
  {
    var tail := GroupsFrom([p], rest, maxLen);
    assert ([p] + rest)[0] == p && ([p] + rest)[1..] == rest;
    assert GroupsFrom(cur, [p] + rest, maxLen) == [cur] + tail;
    assert ([cur] + tail)[1..] == tail;
  }

  /** A paragraph that fits, or the first one, joins the chunk being built. */
  lemma GroupsExtend(cur: seq<string>, p: string, rest: seq<string>, maxLen: int)
    requires !(cur != [] && |Join(cur, PARAGRAPH_BREAK)| + |p| + 2 > maxLen)
    ensures GroupsFrom(cur, [p] + rest, maxLen) == GroupsFrom(cur + [p], rest, maxLen)
  {
    assert ([p] + rest)[0] == p && ([p] + rest)[1..] == rest;
  }

  /** The greedy packing: it keeps every paragraph in
      order, makes no empty chunk, keeps a chunk of two or more paragraphs
      within `maxLen`, and closes a chunk only when the next paragraph does
      not fit. */
  lemma GroupsFromProperties(cur: seq<string>, rest: seq<string>, maxLen: int)
    requires |cur| >= 2 ==> |Join(cur, PARAGRAPH_BREAK)| <= maxLen
    ensures var gs := GroupsFrom(cur, rest, maxLen);
      && Flatten(gs) == cur + rest
      && (forall i | 0 <= i < |gs| :: gs[i] != [])
      && (cur != [] ==> gs != [] && |gs[0]| >= |cur| && gs[0][..|cur|] == cur)
      && (forall i | 0 <= i < |gs| :: |gs[i]| >= 2 ==> |Join(gs[i], PARAGRAPH_BREAK)| <= maxLen)
      && (forall i | 0 <= i < |gs| - 1 ::
            |Join(gs[i], PARAGRAPH_BREAK)| + 2 + |gs[i + 1][0]| > maxLen)
  {
    GroupsFromShape(cur, rest, maxLen);
    GroupsFromBounded(cur, rest, maxLen);
    GroupsFromGreedy(cur, rest, maxLen);
  }

  /** The packing keeps every paragraph in order, makes no empty group, and
      starts with the group being built. */
  lemma {:induction false} GroupsFromShape(cur: seq<string>, rest: seq<string>, maxLen: int)
    decreases |rest|
    ensures Flatten(GroupsFrom(cur, rest, maxLen)) == cur + rest
    ensures forall i | 0 <= i < |GroupsFrom(cur, rest, maxLen)| :: GroupsFrom(cur, rest, maxLen)[i] != []
    ensures cur != [] ==>
      && GroupsFrom(cur, rest, maxLen) != []
      && |GroupsFrom(cur, rest, maxLen)[0]| >= |cur|
      && GroupsFrom(cur, rest, maxLen)[0][..|cur|] == cur
  {
    var gs := GroupsFrom(cur, rest, maxLen);
    if rest == [] {
      if cur != [] {
        assert Flatten(gs) == cur + Flatten([]);
      }
    } else if cur != [] && |Join(cur, PARAGRAPH_BREAK)| + |rest[0]| + 2 > maxLen {
      var tail := GroupsFrom([rest[0]], rest[1..], maxLen);
      GroupsFromShape([rest[0]], rest[1..], maxLen);
      assert gs == [cur] + tail;
      assert gs[1..] == tail;
      assert Flatten(gs) == cur + Flatten(tail);
      assert [rest[0]] + rest[1..] == rest;
    } else {
      var cur' := cur + [rest[0]];
      GroupsFromShape(cur', rest[1..], maxLen);
      assert cur' + rest[1..] == cur + rest;
      if cur != [] {
        assert gs[0][..|cur'|][..|cur|] == cur;
      }
    }
  }

  /** A group of two or more paragraphs fits within `maxLen`. */
  lemma {:induction false} GroupsFromBounded(cur: seq<string>, rest: seq<string>, maxLen: int)
    requires |cur| >= 2 ==> |Join(cur, PARAGRAPH_BREAK)| <= maxLen
    decreases |rest|
    ensures forall i | 0 <= i < |GroupsFrom(cur, rest, maxLen)| ::
      |GroupsFrom(cur, rest, maxLen)[i]| >= 2 ==> |Join(GroupsFrom(cur, rest, maxLen)[i], PARAGRAPH_BREAK)| <= maxLen
  {
    var gs := GroupsFrom(cur, rest, maxLen);
    if rest == [] {
    } else if cur != [] && |Join(cur, PARAGRAPH_BREAK)| + |rest[0]| + 2 > maxLen {
      var tail := GroupsFrom([rest[0]], rest[1..], maxLen);
      GroupsFromBounded([rest[0]], rest[1..], maxLen);
      assert gs == [cur] + tail;
      forall i | 0 <= i < |gs| && |gs[i]| >= 2
        ensures |Join(gs[i], PARAGRAPH_BREAK)| <= maxLen
      {
        if i == 0 {
          assert gs[0] == cur;
        } else {
          assert gs[i] == tail[i - 1];
        }
      }
    } else {
      if cur != [] {
        JoinSnoc(cur, rest[0], PARAGRAPH_BREAK);
      }
      GroupsFromBounded(cur + [rest[0]], rest[1..], maxLen);
      assert gs == GroupsFrom(cur + [rest[0]], rest[1..], maxLen);
    }
  }

  /** A group is closed only because the next group's first paragraph does
      not fit after it. */
  lemma {:induction false} GroupsFromGreedy(cur: seq<string>, rest: seq<string>, maxLen: int)
    decreases |rest|
    ensures forall i {:trigger GroupsFrom(cur, rest, maxLen)[i]} | 0 <= i < |GroupsFrom(cur, rest, maxLen)| - 1 ::
      && GroupsFrom(cur, rest, maxLen)[i + 1] != []
      && |Join(GroupsFrom(cur, rest, maxLen)[i], PARAGRAPH_BREAK)| + 2 + |GroupsFrom(cur, rest, maxLen)[i + 1][0]| > maxLen
  {
    var gs := GroupsFrom(cur, rest, maxLen);
    GroupsFromShape(cur, rest, maxLen);
    if rest == [] {
    } else if cur != [] && |Join(cur, PARAGRAPH_BREAK)| + |rest[0]| + 2 > maxLen {
      var tail := GroupsFrom([rest[0]], rest[1..], maxLen);
      GroupsFromGreedy([rest[0]], rest[1..], maxLen);
      GroupsFromShape([rest[0]], rest[1..], maxLen);
      assert gs == [cur] + tail;
      assert tail[0][..1] == [rest[0]];
      assert tail[0][0] == rest[0];
      assert forall i | 1 <= i < |gs| :: gs[i] == tail[i - 1];
    } else {
      GroupsFromGreedy(cur + [rest[0]], rest[1..], maxLen);
      assert gs == GroupsFrom(cur + [rest[0]], rest[1..], maxLen);
    }
  }

  /** Joining the chunks reproduces the joined paragraphs: nothing dropped,
      repeated, reordered or cut. */
  lemma {:induction false} JoinJoined(gs: seq<seq<string>>)
    requires forall i | 0 <= i < |gs| :: gs[i] != []
    ensures Join(Joined(gs), PARAGRAPH_BREAK) == Join(Flatten(gs), PARAGRAPH_BREAK)
  {
    if |gs| == 1 {
      assert gs[1..] == [];
      assert Joined(gs) == [Join(gs[0], PARAGRAPH_BREAK)];
      assert Flatten(gs) == gs[0] + Flatten([]) == gs[0];
    } else if |gs| > 1 {
      var rest := gs[1..];
      JoinJoined(rest);
      FlattenNonEmpty(rest);
      assert Joined(gs) == [Join(gs[0], PARAGRAPH_BREAK)] + Joined(rest);
      assert Joined(gs)[1..] == Joined(rest);
      JoinConcat(gs[0], Flatten(rest), PARAGRAPH_BREAK);
    }
  }

  lemma {:induction false} FlattenNonEmpty(gs: seq<seq<string>>)
    requires gs != [] && forall i | 0 <= i < |gs| :: gs[i] != []
    ensures |Flatten(gs)| >= |gs|
  {
    if |gs| > 1 {
      FlattenNonEmpty(gs[1..]);
    }
  }

  /** The properties of `clean_and_chunk` on the surviving paragraphs
      `ValidParagraphs(text, minLength)`: the chunks joined with a blank line
      are the paragraphs joined with a blank line; each chunk is non-empty;
      there is at least one chunk and at most one per paragraph; chunk `i` is
      the join of `Groups(...)[i]`, and a chunk of two or more paragraphs is
      within `maxLen`, so only a lone paragraph can exceed it, whole; and
      each chunk was closed because the next paragraph did not fit. */
  lemma ChunksProperties(text: string, minLength: int, maxLen: int)
    ensures var valid := ValidParagraphs(text, minLength);
      var cs := Chunks(text, minLength, maxLen);
      var gs := Groups(valid, maxLen);
      && Join(cs, PARAGRAPH_BREAK) == Join(valid, PARAGRAPH_BREAK)
      && (forall i | 0 <= i < |cs| :: cs[i] != "" && Stripped(cs[i]))
      && (valid == [] <==> cs == [])
      && (valid != [] ==> 1 <= |cs| <= |valid| && cs == Joined(gs) && Flatten(gs) == valid)
      && (valid != [] ==> forall i | 0 <= i < |cs| :: |gs[i]| >= 2 ==> |cs[i]| <= maxLen)
      && (valid != [] ==> forall i | 0 <= i < |cs| - 1 :: |cs[i]| + 2 + |gs[i + 1][0]| > maxLen)
  {
    ChunksJoin(text, minLength, maxLen);
    ChunksGreedy(text, minLength, maxLen);
  }

  /** The joining half of `ChunksProperties`. */
  lemma ChunksJoin(text: string, minLength: int, maxLen: int)
    ensures var valid := ValidParagraphs(text, minLength);
      var cs := Chunks(text, minLength, maxLen);
      var gs := Groups(valid, maxLen);
      && Join(cs, PARAGRAPH_BREAK) == Join(valid, PARAGRAPH_BREAK)
      && (forall i | 0 <= i < |cs| :: cs[i] != "" && Stripped(cs[i]))
      && (valid == [] <==> cs == [])
      && (valid != [] ==> 1 <= |cs| <= |valid| && cs == Joined(gs) && Flatten(gs) == valid)
  {
    ChunksText(text, minLength, maxLen);
    ChunksShape(text, minLength, maxLen);
  }

  lemma ChunksText(text: string, minLength: int, maxLen: int)
    ensures Join(Chunks(text, minLength, maxLen), PARAGRAPH_BREAK) == Join(ValidParagraphs(text, minLength), PARAGRAPH_BREAK)
  {
    var valid := ValidParagraphs(text, minLength);
    if valid != [] {
      GroupsFromShape([], valid, maxLen);
      assert [] + valid == valid;
      JoinJoined(Groups(valid, maxLen));
    }
  }

  lemma ChunksShape(text: string, minLength: int, maxLen: int)
    ensures var valid := ValidParagraphs(text, minLength);
      var cs := Chunks(text, minLength, maxLen);
      var gs := Groups(valid, maxLen);
      && AllParagraphs(cs)
      && (valid == [] <==> cs == [])
      && (valid != [] ==> 1 <= |cs| <= |valid| && cs == Joined(gs) && Flatten(gs) == valid)
  {
    ChunksStripped(text, minLength, maxLen);
    ChunksCount(text, minLength, maxLen);
  }

  lemma ChunksStripped(text: string, minLength: int, maxLen: int)
    ensures AllParagraphs(Chunks(text, minLength, maxLen))
  {
    var valid := ValidParagraphs(text, minLength);
    if valid != [] {
      var gs := Groups(valid, maxLen);
      var cs := Joined(gs);
      assert Chunks(text, minLength, maxLen) == cs;
      GroupsFromShape([], valid, maxLen);
      assert [] + valid == valid;
      GroupsJoinStripped(gs, valid);
      assert AllParagraphs(cs) by {
        forall i | 0 <= i < |cs| ensures cs[i] != "" && Stripped(cs[i]) {
          assert cs[i] == Join(gs[i], PARAGRAPH_BREAK);
        }
      }
    }
  }

  lemma ChunksCount(text: string, minLength: int, maxLen: int)
    ensures var valid := ValidParagraphs(text, minLength);
      var cs := Chunks(text, minLength, maxLen);
      var gs := Groups(valid, maxLen);
      && (valid == [] <==> cs == [])
      && (valid != [] ==> 1 <= |cs| <= |valid| && cs == Joined(gs) && Flatten(gs) == valid)
  {
    var valid := ValidParagraphs(text, minLength);
    if valid != [] {
      var gs := Groups(valid, maxLen);
      GroupsFromShape([], valid, maxLen);
      assert [] + valid == valid;
      assert gs != [];
      FlattenNonEmpty(gs);
    }
  }

  /** The bound and greedy half of `ChunksProperties`. */
  lemma ChunksGreedy(text: string, minLength: int, maxLen: int)
    ensures var valid := ValidParagraphs(text, minLength);
      var cs := Chunks(text, minLength, maxLen);
      var gs := Groups(valid, maxLen);
      && (valid != [] ==> |cs| == |gs|)
      && (valid != [] ==> forall i | 0 <= i < |cs| :: |gs[i]| >= 2 ==> |cs[i]| <= maxLen)
      && (valid != [] ==> forall i | 0 <= i < |cs| - 1 :: gs[i + 1] != [] && |cs[i]| + 2 + |gs[i + 1][0]| > maxLen)
  {
    var valid := ValidParagraphs(text, minLength);
    if valid != [] {
      GroupsFromBounded([], valid, maxLen);
      GroupsFromGreedy([], valid, maxLen);
    }
  }

  /** Groups of non-empty stripped paragraphs join into non-empty stripped
      chunks. */
  lemma GroupsJoinStripped(gs: seq<seq<string>>, valid: seq<string>)
    requires forall i | 0 <= i < |gs| :: gs[i] != []
    requires Flatten(gs) == valid
    requires forall j | 0 <= j < |valid| :: valid[j] != "" && Stripped(valid[j])
    ensures forall i | 0 <= i < |gs| :: Join(gs[i], PARAGRAPH_BREAK) != "" && Stripped(Join(gs[i], PARAGRAPH_BREAK))
  {
    forall i | 0 <= i < |gs| ensures Join(gs[i], PARAGRAPH_BREAK) != "" && Stripped(Join(gs[i], PARAGRAPH_BREAK)) {
      forall j | 0 <= j < |gs[i]| ensures gs[i][j] != "" && Stripped(gs[i][j]) {
        FlattenMember(gs, i, j);
      }
      JoinStripped(gs[i], PARAGRAPH_BREAK);
    }
  }

  lemma {:induction false} FlattenMember(gs: seq<seq<string>>, i: int, j: int)
    requires 0 <= i < |gs| && 0 <= j < |gs[i]|
    ensures gs[i][j] in Flatten(gs)
  {
    if i > 0 {
      FlattenMember(gs[1..], i - 1, j);
    }
  }

  /** A text with nothing but whitespace has no paragraphs, hence no chunks. */
  lemma BlankTextHasNoChunks(text: string, minLength: int, maxLen: int)
    requires forall i | 0 <= i < |text| :: IsSpace(text[i])
    ensures Paragraphs(text) == []
    ensures Chunks(text, minLength, maxLen) == []
  {
    SplitOfBlank(text);
    NonBlankOfBlank(Split(text, PARAGRAPH_BREAK));
  }

  lemma {:induction false} SplitOfBlank(s: string)
    requires forall i | 0 <= i < |s| :: IsSpace(s[i])
    decreases |s|
    ensures forall k | 0 <= k < |Split(s, PARAGRAPH_BREAK)| ::
      forall i | 0 <= i < |Split(s, PARAGRAPH_BREAK)[k]| :: IsSpace(Split(s, PARAGRAPH_BREAK)[k][i])
  {
    var f := Find(s, PARAGRAPH_BREAK);
    if f.Some? {
      var rest := s[f.value + 2..];
      SplitOfBlank(rest);
      assert Split(s, PARAGRAPH_BREAK) == [s[..f.value]] + Split(rest, PARAGRAPH_BREAK);
    }
  }

  lemma {:induction false} NonBlankOfBlank(pieces: seq<string>)
    requires forall k | 0 <= k < |pieces| :: forall i | 0 <= i < |pieces[k]| :: IsSpace(pieces[k][i])
    ensures NonBlank(pieces) == []
  {
    if pieces != [] {
      assert Strip(pieces[0]) == "" by {
        var t := TrimStart(pieces[0]);
        assert t == pieces[0][|pieces[0]| - |t|..];
      }
      NonBlankOfBlank(pieces[1..]);
    }
  }
}
