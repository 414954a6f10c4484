/** `app/core/process_documents.py`: the sentence-respecting chunker
    `split_text` and the per-document ingestion loop `process_documents`. */
module ProcessDocuments {
  import opened Text
  import opened Outcomes
  import opened ChromaStore

  /** The default of `split_text`'s `max_chunk_size`, the only value
      `process_documents` uses. */
  const MaxChunkSize: int := 500

  // ---------------------------------------------------------------------
  // Sentence split: re.split(r'(?<=[.!?]) +', text)
  // ---------------------------------------------------------------------

  predicate IsTerminator(c: char) {
    c == '.' || c == '!' || c == '?'
  }

  /** The pattern can start matching at `i`: a space whose predecessor is a
      sentence terminator. */
  predicate IsBoundary(text: string, i: int) {
    0 < i < |text| && IsTerminator(text[i - 1]) && text[i] == ' '
  }

  /** Where the greedy ` +` that starts at `i` stops. */
  function SpaceRunEnd(text: string, i: nat): (j: nat)
    requires i <= |text|
    ensures i <= j <= |text|
    ensures forall k :: i <= k < j ==> text[k] == ' '
    ensures j == |text| || text[j] != ' '
    decreases |text| - i
  {
    if i < |text| && text[i] == ' ' then SpaceRunEnd(text, i + 1) else i
  }

  /** The left-to-right scan of `re.split`: the current piece started at
      `start` and no match begins in `[start, i)`. Gives the pieces and the
      separators that were cut out between them. */
  function Scan(text: string, start: nat, i: nat): (r: (seq<string>, seq<string>))
    requires start <= i <= |text|
    ensures |r.0| >= 1 && |r.1| + 1 == |r.0|
    decreases |text| - i
  {
    if i == |text| then ([text[start..]], [])
    else if IsBoundary(text, i) then
      var j := SpaceRunEnd(text, i);
      var rest := Scan(text, j, j);
      ([text[start..i]] + rest.0, [text[i..j]] + rest.1)
    else Scan(text, start, i + 1)
  }

  /** The list `re.split(r'(?<=[.!?]) +', text)` returns. */
  function SplitSentences(text: string): (pieces: seq<string>)
    ensures |pieces| >= 1
  {
    Scan(text, 0, 0).0
  }

  /** The runs of spaces `re.split` removed, one between each two pieces. */
  function Separators(text: string): (seps: seq<string>)
    ensures |seps| + 1 == |SplitSentences(text)|
  {
    Scan(text, 0, 0).1
  }

  /** Pieces put back together with the separators between them. */
  function Interleave(pieces: seq<string>, seps: seq<string>): string
    requires |seps| + 1 == |pieces|
    decreases |pieces|
  {
    if |pieces| == 1 then pieces[0]
    else pieces[0] + seps[0] + Interleave(pieces[1..], seps[1..])
  }

  /** No terminator directly followed by a space anywhere inside `s`. */
  predicate NoBoundaryInside(s: string) {
    forall k :: 0 <= k < |s| - 1 ==> !(IsTerminator(s[k]) && s[k + 1] == ' ')
  }

  /** A separator: a non-empty run of plain spaces. */
  predicate IsSeparator(s: string) {
    s != [] && forall k :: 0 <= k < |s| ==> s[k] == ' '
  }

  /** A piece that is followed by a separator ends in a terminator. */
  predicate EndsSentence(s: string) {
    s != [] && IsTerminator(s[|s| - 1])
  }

  /** A piece that follows a separator does not start with a space. */
  predicate StartsAfterRun(s: string) {
    s == [] || s[0] != ' '
  }

  /** Scan's preconditions for the lemmas below. */
  predicate ScanReady(text: string, start: nat, i: nat) {
    && start <= i <= |text|
    && (start == 0 || text[start - 1] == ' ')
    && (forall k :: start <= k < i ==> !IsBoundary(text, k))
  }

  lemma {:induction false} ScanRoundTrip(text: string, start: nat, i: nat)
    requires start <= i <= |text|
    ensures Interleave(Scan(text, start, i).0, Scan(text, start, i).1) == text[start..]
    decreases |text| - i
  {
    if i < |text| && IsBoundary(text, i) {
      var j := SpaceRunEnd(text, i);
      ScanRoundTrip(text, j, j);
      var rest := Scan(text, j, j);
      var r := Scan(text, start, i);
      assert r.0[1..] == rest.0 && r.1[1..] == rest.1;
      assert text[start..] == text[start..i] + text[i..j] + text[j..];
    } else if i < |text| {
      ScanRoundTrip(text, start, i + 1);
    }
  }

  lemma {:induction false} ScanSeparators(text: string, start: nat, i: nat)
    requires start <= i <= |text|
    requires start == 0 || text[start - 1] == ' '
    ensures forall k :: 0 <= k < |Scan(text, start, i).1| ==> IsSeparator(Scan(text, start, i).1[k])
    ensures forall k :: 0 <= k < |Scan(text, start, i).1| ==> EndsSentence(Scan(text, start, i).0[k])
    ensures forall k :: 1 <= k < |Scan(text, start, i).0| ==> StartsAfterRun(Scan(text, start, i).0[k])
    decreases |text| - i
  {
    if i < |text| && IsBoundary(text, i) {
      var j := SpaceRunEnd(text, i);
      ScanSeparators(text, j, j);
      ScanFirst(text, j, j);
      var rest := Scan(text, j, j);
      var r := Scan(text, start, i);
      assert forall k :: 1 <= k < |r.0| ==> r.0[k] == rest.0[k - 1];
      assert forall k :: 1 <= k < |r.1| ==> r.1[k] == rest.1[k - 1];
      assert IsSeparator(r.1[0]);
      assert EndsSentence(r.0[0]);
    } else if i < |text| {
      ScanSeparators(text, start, i + 1);
    }
  }

  /** The first piece of a scan starts where the scan started. */
  lemma {:induction false} ScanFirst(text: string, start: nat, i: nat)
    requires start <= i <= |text|
    ensures Scan(text, start, i).0[0] == text[start..StartEnd(text, start, i)]
    decreases |text| - i
  {
    if i < |text| && !IsBoundary(text, i) {
      ScanFirst(text, start, i + 1);
    }
  }

  /** Where the first piece of `Scan(text, start, i)` ends. */
  function StartEnd(text: string, start: nat, i: nat): (e: nat)
    requires start <= i <= |text|
    ensures i <= e <= |text|
    ensures forall k :: i <= k < e ==> !IsBoundary(text, k)
    ensures e == |text| || IsBoundary(text, e)
    decreases |text| - i
  {
    if i == |text| || IsBoundary(text, i) then i else StartEnd(text, start, i + 1)
  }

  lemma {:induction false} ScanNoBoundary(text: string, start: nat, i: nat)
    requires ScanReady(text, start, i)
    ensures forall k :: 0 <= k < |Scan(text, start, i).0| ==> NoBoundaryInside(Scan(text, start, i).0[k])
    decreases |text| - i
  {
    var r := Scan(text, start, i);
    if i == |text| || IsBoundary(text, i) {
      var p := text[start..i];
      forall k | 0 <= k < |p| - 1
        ensures !(IsTerminator(p[k]) && p[k + 1] == ' ')
      {
        assert !IsBoundary(text, start + k + 1);
      }
      if i < |text| {
        var j := SpaceRunEnd(text, i);
        ScanNoBoundary(text, j, j);
        assert forall k :: 1 <= k < |r.0| ==> r.0[k] == Scan(text, j, j).0[k - 1];
      } else {
        assert text[start..] == p;
      }
    } else {
      ScanNoBoundary(text, start, i + 1);
    }
  }

  /** What `re.split(r'(?<=[.!?]) +', text)` promises about its result,
      stated independently of the scan. */
  ghost predicate SplitOf(text: string, pieces: seq<string>, seps: seq<string>) {
    && |pieces| >= 1
    && |seps| + 1 == |pieces|
    && Interleave(pieces, seps) == text
    && (forall k :: 0 <= k < |seps| ==> IsSeparator(seps[k]))
    && (forall k :: 0 <= k < |seps| ==> EndsSentence(pieces[k]))
    && (forall k :: 1 <= k < |pieces| ==> StartsAfterRun(pieces[k]))
    && (forall k :: 0 <= k < |pieces| ==> NoBoundaryInside(pieces[k]))
  }

  /** The split breaks only at runs of plain spaces that follow `.`, `!` or
      `?`: every piece but the last ends in a terminator, the next piece does
      not start with a space (the run was taken whole), no piece still holds
      a terminator followed by a space, and putting the removed runs back
      gives the text again. */
  lemma SplitSentencesSpec(text: string)
    ensures SplitOf(text, SplitSentences(text), Separators(text))
  {
    ScanRoundTrip(text, 0, 0);
    ScanSeparators(text, 0, 0);
    ScanNoBoundary(text, 0, 0);
  }

  /** `re.split` on the empty string returns `[""]`. */
  lemma SplitEmpty()
    ensures SplitSentences("") == [""]
  {
  }

  // ---------------------------------------------------------------------
  // Greedy packing: the loop of lines 51-59, stated as a grouping
  // ---------------------------------------------------------------------

  /** The buffer `current_chunk` after adding `g`'s sentences, each followed
      by one space. */
  function Buffer(g: seq<string>): (b: string)
    ensures |b| >= |g|
  {
    if g == [] then "" else Buffer(g[..|g| - 1]) + g[|g| - 1] + " "
  }

  /** The greedy grouping of the first `n` sentences: each inner sequence
      is the run of sentences that went into one chunk, and the last group is
      the buffer still open. A sentence joins the open group when the open
      buffer's length plus its own is at most `max`; otherwise it starts a new
      group. */
  function Packed(pieces: seq<string>, n: nat, max: int): (gs: seq<seq<string>>)
    requires n <= |pieces|
    ensures |gs| >= 1
    decreases n
  {
    if n == 0 then [[]] else Place(Packed(pieces, n - 1, max), pieces[n - 1], max)
  }

  /** One step of the greedy packing: sentence `s` joins the open (last)
      group when it fits, or opens a new group. */
  function Place(gs: seq<seq<string>>, s: string, max: int): (r: seq<seq<string>>)
    requires |gs| >= 1
    ensures |r| >= 1
  {
    var open := gs[|gs| - 1];
    if |Buffer(open)| + |s| <= max then gs[..|gs| - 1] + [open + [s]]
    else gs + [[s]]
  }

  /** The grouping of all the sentences. */
  function Grouping(pieces: seq<string>, max: int): (gs: seq<seq<string>>)
    ensures |gs| >= 1
  {
    Packed(pieces, |pieces|, max)
  }

  /** The chunk a group becomes: its buffer, stripped. */
  function ChunkText(g: seq<string>): string {
    Strip(Buffer(g))
  }

  function Texts(gs: seq<seq<string>>): (cs: seq<string>)
    ensures |cs| == |gs|
    ensures forall k :: 0 <= k < |gs| ==> cs[k] == ChunkText(gs[k])
  {
    seq(|gs|, k requires 0 <= k < |gs| => ChunkText(gs[k]))
  }

  /** The chunk list `split_text(text, max)` returns. */
  function Chunks(text: string, max: int): seq<string> {
    Texts(Grouping(SplitSentences(text), max))
  }

  /** Python's `" ".join(g)`. */
  function JoinSpace(g: seq<string>): string {
    if g == [] then "" else if |g| == 1 then g[0] else JoinSpace(g[..|g| - 1]) + " " + g[|g| - 1]
  }

  /** All groups joined back together, in order. */
  function Flatten(gs: seq<seq<string>>): seq<string> {
    if gs == [] then [] else Flatten(gs[..|gs| - 1]) + gs[|gs| - 1]
  }

  lemma BufferSnoc(g: seq<string>, s: string)
    ensures Buffer(g + [s]) == Buffer(g) + s + " "
  {
    assert (g + [s])[..|g|] == g;
  }

  lemma TextsSnoc(gs: seq<seq<string>>, g: seq<string>)
    ensures Texts(gs + [g]) == Texts(gs) + [ChunkText(g)]
  {
  }

  /** Place stated on a grouping split into its closed groups and its
      open group. */
  lemma PlaceOpen(closed: seq<seq<string>>, open: seq<string>, s: string, max: int)
    ensures Place(closed + [open], s, max) ==
      if |Buffer(open)| + |s| <= max then closed + [open + [s]] else closed + [open] + [[s]]
  {
    assert (closed + [open])[..|closed|] == closed;
  }

  /** `split_text` (lines 41-61). Loops over the sentences growing the
      buffer, flushes the stripped buffer when the next sentence does not fit,
      and flushes what is left at the end. */
  method SplitText(text: string, maxChunkSize: int) returns (chunks: seq<string>)
    ensures chunks == Chunks(text, maxChunkSize)
  {
    var sentences := SplitSentences(text);
    chunks := [];
    var current := "";
    ghost var closed: seq<seq<string>> := [];
    ghost var open: seq<string> := [];
    for i := 0 to |sentences|
      invariant Packed(sentences, i, maxChunkSize) == closed + [open]
      invariant chunks == Texts(closed)
      invariant current == Buffer(open)
      invariant i > 0 ==> open != []
    {
      var sentence := sentences[i];
      PackStep(sentences, i, maxChunkSize, closed, open);
      if |current| + |sentence| <= maxChunkSize {
        current := current + sentence + " ";
        open := open + [sentence];
      } else {
        TextsSnoc(closed, open);
        chunks := chunks + [Strip(current)];
        closed := closed + [open];
        current := sentence + " ";
        open := [sentence];
      }
    }
    if current != "" {
      TextsSnoc(closed, open);
      chunks := chunks + [Strip(current)];
      closed := closed + [open];
    }
  }

  /** One turn of the loop in `SplitText`: the sentence either grows the
      open buffer or closes it as a chunk and opens a new one. */
  lemma PackStep(pieces: seq<string>, i: nat, max: int, closed: seq<seq<string>>, open: seq<string>)
    requires i < |pieces| && Packed(pieces, i, max) == closed + [open]
    ensures var s := pieces[i];
      if |Buffer(open)| + |s| <= max then
        Packed(pieces, i + 1, max) == closed + [open + [s]] && Buffer(open + [s]) == Buffer(open) + s + " "
      else
        && Packed(pieces, i + 1, max) == (closed + [open]) + [[s]]
        && Buffer([s]) == s + " "
  {
    var s := pieces[i];
    PlaceOpen(closed, open, s, max);
    BufferSnoc(open, s);
    BufferSnoc([], s);
  }

  // ---------------------------------------------------------------------
  // Properties of the packing
  // ---------------------------------------------------------------------

  lemma FlattenSnoc(gs: seq<seq<string>>, g: seq<string>)
    ensures Flatten(gs + [g]) == Flatten(gs) + g
  {
    assert (gs + [g])[..|gs|] == gs;
  }

  /** Placing a sentence appends it to the flattening. */
  lemma PlaceFlatten(gs: seq<seq<string>>, s: string, max: int)
    requires |gs| >= 1
    ensures Flatten(Place(gs, s, max)) == Flatten(gs) + [s]
  {
    var open := gs[|gs| - 1];
    var front := gs[..|gs| - 1];
    assert Flatten(gs) == Flatten(front) + open;
    if |Buffer(open)| + |s| <= max {
      FlattenSnoc(front, open + [s]);
    } else {
      FlattenSnoc(gs, [s]);
    }
  }

  /** Every sentence lands in exactly one group, in the original order, and
      none is divided. */
  lemma {:induction false} PackedPartitions(pieces: seq<string>, n: nat, max: int)
    requires n <= |pieces|
    ensures Flatten(Packed(pieces, n, max)) == pieces[..n]
    decreases n
  {
    if n > 0 {
      PackedPartitions(pieces, n - 1, max);
      PlaceFlatten(Packed(pieces, n - 1, max), pieces[n - 1], max);
      assert pieces[..n - 1] + [pieces[n - 1]] == pieces[..n];
    }
  }

  lemma GroupingPartitions(pieces: seq<string>, max: int)
    ensures Flatten(Grouping(pieces, max)) == pieces
  {
    PackedPartitions(pieces, |pieces|, max);
    assert pieces[..|pieces|] == pieces;
  }

  /** Only the first group can be empty, and it is empty exactly when no
      sentence has been placed or the first sentence alone is longer than
      `max`; otherwise it starts with the first sentence. The open group is
      never empty once a sentence has been placed. */
  lemma {:induction false} PackedShape(pieces: seq<string>, n: nat, max: int)
    requires n <= |pieces|
    ensures forall k :: 1 <= k < |Packed(pieces, n, max)| ==> Packed(pieces, n, max)[k] != []
    ensures Packed(pieces, n, max)[0] == [] <==> n == 0 || |pieces[0]| > max
    ensures n > 0 && |pieces[0]| <= max ==> Packed(pieces, n, max)[0][0] == pieces[0]
    ensures n > 0 ==> Packed(pieces, n, max)[|Packed(pieces, n, max)| - 1] != []
    decreases n
  {
    if n > 0 {
      PackedShape(pieces, n - 1, max);
      PlaceShape(Packed(pieces, n - 1, max), pieces[n - 1], max);
    }
  }

  /** How one placement changes the shape of a grouping: later groups are
      only added or grown, the new open group is non-empty, and the first
      group keeps its first sentence. */
  lemma PlaceShape(gs: seq<seq<string>>, s: string, max: int)
    requires |gs| >= 1
    ensures var ng := Place(gs, s, max);
      && |ng| >= |gs|
      && (forall k :: 1 <= k < |ng| ==> ng[k] == [s] || (k < |gs| && |gs[k]| <= |ng[k]| && gs[k] <= ng[k]))
      && ng[|ng| - 1] != []
      && (gs[0] != [] ==> ng[0] != [] && ng[0][0] == gs[0][0])
      && (|gs| > 1 ==> ng[0] == gs[0])
      && (|gs| == 1 && gs[0] == [] ==> (ng[0] == [] <==> |s| > max) && (|s| <= max ==> ng[0][0] == s))
  {
    var open := gs[|gs| - 1];
    if |Buffer(open)| + |s| <= max {
      var ng := gs[..|gs| - 1] + [open + [s]];
      assert forall k :: 0 <= k < |gs| - 1 ==> ng[k] == gs[k];
      assert ng[|gs| - 1] == open + [s];
    }
  }

  lemma GroupingShape(pieces: seq<string>, max: int)
    ensures forall k :: 1 <= k < |Grouping(pieces, max)| ==> Grouping(pieces, max)[k] != []
    ensures Grouping(pieces, max)[0] == [] <==> pieces == [] || |pieces[0]| > max
    ensures pieces != [] && |pieces[0]| <= max ==> Grouping(pieces, max)[0][0] == pieces[0]
  {
    PackedShape(pieces, |pieces|, max);
  }

  /** A group fits when its buffer, trailing space included, is at most one
      longer than `max`; a group that does not fit holds a single sentence. */
  predicate FitsOrSingle(g: seq<string>, max: int) {
    g == [] || |Buffer(g)| <= max + 1 || |g| == 1
  }

  lemma PlaceFits(gs: seq<seq<string>>, s: string, max: int)
    requires |gs| >= 1
    requires forall k :: 0 <= k < |gs| ==> FitsOrSingle(gs[k], max)
    ensures forall k :: 0 <= k < |Place(gs, s, max)| ==> FitsOrSingle(Place(gs, s, max)[k], max)
  {
    var open := gs[|gs| - 1];
    var ng := Place(gs, s, max);
    if |Buffer(open)| + |s| <= max {
      forall k | 0 <= k < |ng| ensures FitsOrSingle(ng[k], max) {
        if k < |gs| - 1 {
          assert ng[k] == gs[k];
        } else {
          assert ng[k] == open + [s];
          BufferSnoc(open, s);
        }
      }
    } else {
      forall k | 0 <= k < |ng| ensures FitsOrSingle(ng[k], max) {
        if k < |gs| {
          assert ng[k] == gs[k];
        } else {
          assert ng[k] == [s];
        }
      }
    }
  }

  lemma {:induction false} PackedFits(pieces: seq<string>, n: nat, max: int)
    requires n <= |pieces|
    ensures forall k :: 0 <= k < |Packed(pieces, n, max)| ==> FitsOrSingle(Packed(pieces, n, max)[k], max)
    decreases n
  {
    if n > 0 {
      PackedFits(pieces, n - 1, max);
      PlaceFits(Packed(pieces, n - 1, max), pieces[n - 1], max);
    }
  }

  /** Group `k` was closed because the first sentence of group `k + 1` would
      have made its buffer longer than `max`. */
  predicate ClosedWhenFull(gs: seq<seq<string>>, k: nat, max: int) {
    k + 1 < |gs| && gs[k + 1] != [] && |Buffer(gs[k])| + |gs[k + 1][0]| > max
  }

  lemma PlaceGreedy(gs: seq<seq<string>>, s: string, max: int)
    requires |gs| >= 1
    requires forall k :: 1 <= k < |gs| ==> gs[k] != []
    requires forall k: nat :: k < |gs| - 1 ==> ClosedWhenFull(gs, k, max)
    ensures forall k: nat :: k < |Place(gs, s, max)| - 1 ==> ClosedWhenFull(Place(gs, s, max), k, max)
  {
    var open := gs[|gs| - 1];
    var ng := Place(gs, s, max);
    if |Buffer(open)| + |s| <= max {
      forall k: nat | k < |ng| - 1
        ensures ClosedWhenFull(ng, k, max)
      {
        assert ClosedWhenFull(gs, k, max);
        if k + 1 == |gs| - 1 {
          assert ng[k + 1][0] == open[0];
        }
      }
    } else {
      forall k: nat | k < |ng| - 1
        ensures ClosedWhenFull(ng, k, max)
      {
        if k < |gs| - 1 {
          assert ClosedWhenFull(gs, k, max);
        }
      }
    }
  }

  /** The packing is greedy: a chunk is closed only when the next sentence
      does not fit. */
  lemma {:induction false} PackedIsGreedy(pieces: seq<string>, n: nat, max: int)
    requires n <= |pieces|
    ensures forall k: nat :: k < |Packed(pieces, n, max)| - 1 ==> ClosedWhenFull(Packed(pieces, n, max), k, max)
    decreases n
  {
    if n > 0 {
      PackedIsGreedy(pieces, n - 1, max);
      PackedShape(pieces, n - 1, max);
      PlaceGreedy(Packed(pieces, n - 1, max), pieces[n - 1], max);
    }
  }

  lemma BufferJoin(g: seq<string>)
    requires g != []
    ensures Buffer(g) == JoinSpace(g) + " "
    decreases |g|
  {
    if |g| > 1 {
      BufferJoin(g[..|g| - 1]);
    } else {
      assert g[..0] == [];
    }
  }

  /** The chunk for a group is the stripped single-space join of its
      sentences, as `" ".join(group).strip()`. */
  lemma ChunkIsJoin(g: seq<string>)
    ensures ChunkText(g) == Strip(JoinSpace(g))
  {
    if g != [] {
      BufferJoin(g);
      StripTrailingSpace(JoinSpace(g), ' ');
    }
  }

  /** The length bound of one chunk from its group's shape. */
  lemma ChunkBound(g: seq<string>, max: int)
    requires 0 <= max
    requires FitsOrSingle(g, max)
    ensures |ChunkText(g)| <= max || (|g| == 1 && |g[0]| > max && ChunkText(g) == Strip(g[0]))
  {
    if g != [] {
      var front := g[..|g| - 1];
      var x := Buffer(front) + g[|g| - 1];
      assert g == front + [g[|g| - 1]];
      BufferSnoc(front, g[|g| - 1]);
      assert Buffer(g) == x + [' '];
      StripTrailingSpace(x, ' ');
      if |g| == 1 {
        assert front == [];
        assert x == g[0];
      }
    }
  }

  // ---------------------------------------------------------------------
  // What split_text promises
  // ---------------------------------------------------------------------

  /** The chunks are the stripped single-space joins of the groups of a
      partition of the sentence list into runs of consecutive sentences, in
      order, with every group after the first non-empty. */
  lemma ChunksPartitionSentences(text: string, max: int)
    ensures var gs := Grouping(SplitSentences(text), max);
      && Flatten(gs) == SplitSentences(text)
      && |Chunks(text, max)| == |gs|
      && (forall k :: 1 <= k < |gs| ==> gs[k] != [])
      && (forall k :: 0 <= k < |gs| ==> Chunks(text, max)[k] == Strip(JoinSpace(gs[k])))
  {
    var gs := Grouping(SplitSentences(text), max);
    GroupingPartitions(SplitSentences(text), max);
    GroupingShape(SplitSentences(text), max);
    forall k | 0 <= k < |gs| ensures Chunks(text, max)[k] == Strip(JoinSpace(gs[k])) {
      ChunkIsJoin(gs[k]);
    }
  }

  /** Every chunk is at most `max` long, unless it is made of one sentence
      that alone is longer than `max`. */
  lemma ChunksBounded(text: string, max: int)
    requires 0 <= max
    ensures var gs := Grouping(SplitSentences(text), max);
      forall k :: 0 <= k < |gs| ==>
        |Chunks(text, max)[k]| <= max ||
        (|gs[k]| == 1 && |gs[k][0]| > max && Chunks(text, max)[k] == Strip(gs[k][0]))
  {
    var gs := Grouping(SplitSentences(text), max);
    PackedFits(SplitSentences(text), |SplitSentences(text)|, max);
    forall k | 0 <= k < |gs|
      ensures |Chunks(text, max)[k]| <= max ||
        (|gs[k]| == 1 && |gs[k][0]| > max && Chunks(text, max)[k] == Strip(gs[k][0]))
    {
      ChunkBound(gs[k], max);
    }
  }

  /** Every chunk is free of leading and trailing whitespace. */
  lemma ChunksStripped(text: string, max: int)
    ensures forall k :: 0 <= k < |Chunks(text, max)| ==> IsStripped(Chunks(text, max)[k])
  {
  }

  /** A chunk was flushed because the next chunk's first sentence would have
      made it too long. */
  lemma ChunksGreedy(text: string, max: int)
    ensures var gs := Grouping(SplitSentences(text), max);
      forall k: nat :: k < |gs| - 1 ==> ClosedWhenFull(gs, k, max)
  {
    PackedIsGreedy(SplitSentences(text), |SplitSentences(text)|, max);
  }

  /** With no empty group after the first, there is at most one more group
      than elements. */
  lemma {:induction false} NonEmptyGroupsBound(gs: seq<seq<string>>)
    requires |gs| >= 1
    requires forall k :: 1 <= k < |gs| ==> gs[k] != []
    ensures |gs| <= |Flatten(gs)| + 1
    decreases |gs|
  {
    if |gs| > 1 {
      NonEmptyGroupsBound(gs[..|gs| - 1]);
    }
  }

  /** There is always at least one chunk and at most one more chunk than
      sentences; the first chunk is `""` when the first sentence alone is
      longer than `max`. */
  lemma ChunksCount(text: string, max: int)
    ensures 1 <= |Chunks(text, max)| <= |SplitSentences(text)| + 1
    ensures |SplitSentences(text)[0]| > max ==> Chunks(text, max)[0] == ""
  {
    var p := SplitSentences(text);
    GroupingShape(p, max);
    GroupingPartitions(p, max);
    NonEmptyGroupsBound(Grouping(p, max));
  }

  /** Empty text gives exactly `[""]` at the default size. */
  lemma ChunksOfEmpty()
    ensures Chunks("", MaxChunkSize) == [""]
  {
    SplitEmpty();
    var start: seq<seq<string>> := [[]];
    assert Packed([""], 0, MaxChunkSize) == start;
    assert Grouping([""], MaxChunkSize) == Place(start, "", MaxChunkSize);
    var empty: seq<string> := [];
    assert empty + [""] == [""];
    assert start[..0] == [];
    assert start[..0] + [empty + [""]] == [[""]];
    assert Place(start, "", MaxChunkSize) == [[""]];
    BufferSnoc([], "");
    assert Buffer([""]) == " ";
    assert " "[..0] == "";
    assert Strip(" ") == "";
  }

  /** When the first sentence alone does not fit, the first chunk emitted is
      `""` and the second chunk starts with that sentence. */
  lemma LeadingEmptyChunk(text: string, max: int)
    requires |SplitSentences(text)[0]| > max
    ensures |Chunks(text, max)| >= 2
    ensures Chunks(text, max)[0] == ""
    ensures var gs := Grouping(SplitSentences(text), max);
      gs[1] != [] && gs[1][0] == SplitSentences(text)[0]
  {
    var p := SplitSentences(text);
    GroupingShape(p, max);
    GroupingPartitions(p, max);
    var gs := Grouping(p, max);
    assert |gs| >= 2;
    assert Flatten(gs[..2]) == Flatten(gs[..1]) + gs[1] by { assert gs[..2][..1] == gs[..1]; }
    assert Flatten(gs[..1]) == [] by { assert gs[..1][..0] == []; }
    FlattenPrefix(gs, 2);
  }

  /** The flattening of a prefix of groups is a prefix of the flattening. */
  lemma {:induction false} FlattenPrefix(gs: seq<seq<string>>, n: nat)
    requires n <= |gs|
    ensures Flatten(gs[..n]) <= Flatten(gs)
    decreases |gs|
  {
    if n < |gs| {
      FlattenPrefix(gs[..|gs| - 1], n);
      assert gs[..|gs| - 1][..n] == gs[..n];
    } else {
      assert gs[..n] == gs;
    }
  }

  // ---------------------------------------------------------------------
  // process_documents (lines 8-35)
  // ---------------------------------------------------------------------

  /** One item of the `doc_texts` dict: (filename, text). The dict is given as
      its items in iteration order. */
  type Document = (string, string)

  /** Dict keys are unique. */
  predicate DistinctKeys(docs: seq<Document>) {
    forall i, j :: 0 <= i < j < |docs| ==> docs[i].0 != docs[j].0
  }

  /** The chunks `split_text` makes of a document at the default size. */
  function DocChunks(doc: Document): seq<string> {
    Chunks(doc.1, MaxChunkSize)
  }

  /** The error the add for one document raises, if any; `storeOk` says for
      each filename whether the collection call succeeds. */
  function DocError(doc: Document, embed: string -> Option<Vector>, storeOk: string -> bool): Option<ValueError> {
    AddError(DocChunks(doc), embed, storeOk(doc.0))
  }

  /** The index of the first document whose add raises, or `|docs|`. */
  function FirstFailure(docs: seq<Document>, embed: string -> Option<Vector>, storeOk: string -> bool): (k: nat)
    ensures k <= |docs|
    ensures forall i :: 0 <= i < k ==> DocError(docs[i], embed, storeOk).None?
    ensures k < |docs| ==> DocError(docs[k], embed, storeOk).Some?
  {
    if docs == [] then 0
    else if DocError(docs[0], embed, storeOk).Some? then 0
    else
      var k := FirstFailure(docs[1..], embed, storeOk);
      assert forall i :: 1 <= i < k + 1 ==> docs[i] == docs[1..][i - 1];
      1 + k
  }

  /** The ids `uuid4` hands out during one call: `mint(i, j)` is the id of
      chunk `j` of document `i`. They never repeat. */
  ghost predicate Injective(mint: (nat, nat) -> string) {
    forall a: nat, b: nat, c: nat, d: nat :: mint(a, b) == mint(c, d) ==> a == c && b == d
  }

  /** No id minted for document `from` or a later one is in the store yet. */
  ghost predicate FreshFrom(mint: (nat, nat) -> string, from: nat, entries: seq<Entry>) {
    forall a: nat, b: nat :: from <= a ==> mint(a, b) !in IdsOf(entries)
  }

  /** The ids of the `count` chunks of document `doc`. */
  function MintIds(mint: (nat, nat) -> string, doc: nat, count: nat): (ids: seq<string>)
    ensures |ids| == count
  {
    if count == 0 then [] else MintIds(mint, doc, count - 1) + [mint(doc, count - 1)]
  }

  /** Id `j` of document `doc`'s batch is `mint(doc, j)`. */
  lemma {:induction false} MintIdsAt(mint: (nat, nat) -> string, doc: nat, count: nat, j: nat)
    requires j < count
    ensures MintIds(mint, doc, count)[j] == mint(doc, j)
  {
    if j < count - 1 {
      MintIdsAt(mint, doc, count - 1, j);
    }
  }

  /** The batch document `i` adds: its chunks under its own ids. */
  function DocBatch(docs: seq<Document>, i: nat, embed: string -> Option<Vector>, mint: (nat, nat) -> string): seq<Entry>
    requires i < |docs|
  {
    var chunks := DocChunks(docs[i]);
    Batch(chunks, MintIds(mint, i, |chunks|), Embeddings(chunks, embed), docs[i].0)
  }

  /** Every document's batch, in dict order. */
  function Batches(docs: seq<Document>, embed: string -> Option<Vector>, mint: (nat, nat) -> string): (bs: seq<seq<Entry>>)
    ensures |bs| == |docs|
    ensures forall i :: 0 <= i < |docs| ==> bs[i] == DocBatch(docs, i, embed, mint)
  {
    seq(|docs|, i requires 0 <= i < |docs| => DocBatch(docs, i, embed, mint))
  }

  /** The first `n` batches one after the other. */
  function Joined(bs: seq<seq<Entry>>, n: nat): seq<Entry>
    requires n <= |bs|
  {
    if n == 0 then [] else Joined(bs, n - 1) + bs[n - 1]
  }

  /** The entries the first `n` documents add. */
  function Ingested(docs: seq<Document>, n: nat, embed: string -> Option<Vector>, mint: (nat, nat) -> string): seq<Entry>
    requires n <= |docs|
  {
    Joined(Batches(docs, embed, mint), n)
  }

  function Filenames(docs: seq<Document>): (names: seq<string>)
    ensures |names| == |docs|
    ensures forall i :: 0 <= i < |docs| ==> names[i] == docs[i].0
  {
    seq(|docs|, i requires 0 <= i < |docs| => docs[i].0)
  }

  /** `[str(uuid.uuid4()) for _ in chunks]` for document `doc`. */
  method MintBatchIds(mint: (nat, nat) -> string, doc: nat, count: nat) returns (ids: seq<string>)
    ensures ids == MintIds(mint, doc, count)
  {
    ids := [];
    for j := 0 to count
      invariant ids == MintIds(mint, doc, j)
    {
      ids := ids + [mint(doc, j)];
    }
  }

  /** `process_documents(doc_texts)`: splits each document and adds its
      chunks under fresh ids and its filename, one add per document; the
      first add that raises stops the loop, with the documents before it
      stored and none after it. */
  method ProcessDocuments(store: Collection, docs: seq<Document>, embed: string -> Option<Vector>,
                          storeOk: string -> bool, mint: (nat, nat) -> string) returns (r: Result<()>)
    requires store.Valid()
    requires Injective(mint) && FreshFrom(mint, 0, store.entries)
    modifies store
    ensures store.Valid()
    ensures var k := FirstFailure(docs, embed, storeOk);
      && store.entries == old(store.entries) + Ingested(docs, k, embed, mint)
      && (r.Ok? <==> k == |docs|)
      && (r.Err? ==> r.error == ProcessFailed(DocError(docs[k], embed, storeOk).value))
  {
    ghost var k := FirstFailure(docs, embed, storeOk);
    for i := 0 to |docs|
      invariant i <= k
      invariant store.Valid()
      invariant store.entries == old(store.entries) + Ingested(docs, i, embed, mint)
      invariant FreshFrom(mint, i, store.entries)
    {
      var (filename, text) := docs[i];
      var chunks := SplitText(text, MaxChunkSize);
      var ids := MintBatchIds(mint, i, |chunks|);
      FreshBatchIds(store.entries, mint, i, |chunks|);
      ghost var before := store.entries;
      assert chunks == DocChunks(docs[i]);
      DocBatchIs(docs, i, embed, mint, chunks, ids);
      var added := store.Add(chunks, ids, filename, embed, storeOk(filename));
      FailureIndex(docs, embed, storeOk, i);
      if added.Err? {
        r := Err(ProcessFailed(added.error));
        return;
      }
      IngestStep(docs, i, embed, mint, old(store.entries), before);
      FreshAfterDoc(docs, i, embed, mint, before);
    }
    r := Ok(());
  }

  /** Where the loop stands relative to the first failing document. */
  lemma FailureIndex(docs: seq<Document>, embed: string -> Option<Vector>, storeOk: string -> bool, i: nat)
    requires i < |docs| && i <= FirstFailure(docs, embed, storeOk)
    ensures DocError(docs[i], embed, storeOk).None? ==> i < FirstFailure(docs, embed, storeOk)
    ensures DocError(docs[i], embed, storeOk).Some? ==> i == FirstFailure(docs, embed, storeOk)
  {
  }

  /** Ids minted from fresh, distinct draws are fresh for a batch. */
  lemma FreshBatchIds(entries: seq<Entry>, mint: (nat, nat) -> string, doc: nat, count: nat)
    requires Injective(mint) && FreshFrom(mint, doc, entries)
    ensures FreshIds(MintIds(mint, doc, count), entries)
  {
    var ids := MintIds(mint, doc, count);
    forall i, j | 0 <= i < j < |ids| ensures ids[i] != ids[j] {
      MintIdsAt(mint, doc, count, i);
      MintIdsAt(mint, doc, count, j);
    }
    forall i | 0 <= i < |ids| ensures ids[i] !in IdsOf(entries) {
      MintIdsAt(mint, doc, count, i);
    }
  }

  /** One successful add extends the loop's account of the store by the
      entries of one more document. */
  lemma IngestStep(docs: seq<Document>, i: nat, embed: string -> Option<Vector>, mint: (nat, nat) -> string,
                   initial: seq<Entry>, entries: seq<Entry>)
    requires i < |docs|
    requires entries == initial + Ingested(docs, i, embed, mint)
    ensures entries + DocBatch(docs, i, embed, mint) == initial + Ingested(docs, i + 1, embed, mint)
  {
    IngestedSnoc(docs, i, embed, mint);
  }

  /** After document `i`'s batch, the ids of later documents are still
      fresh. */
  lemma FreshAfterDoc(docs: seq<Document>, i: nat, embed: string -> Option<Vector>, mint: (nat, nat) -> string,
                      entries: seq<Entry>)
    requires i < |docs|
    requires Injective(mint) && FreshFrom(mint, i, entries)
    ensures FreshFrom(mint, i + 1, entries + DocBatch(docs, i, embed, mint))
  {
    var chunks := DocChunks(docs[i]);
    FreshAfterBatch(mint, i, entries, chunks, Embeddings(chunks, embed), docs[i].0);
  }

  /** The batch the loop adds for document `i` is `DocBatch`. */
  lemma DocBatchIs(docs: seq<Document>, i: nat, embed: string -> Option<Vector>, mint: (nat, nat) -> string,
                   chunks: seq<string>, ids: seq<string>)
    requires i < |docs|
    requires chunks == DocChunks(docs[i]) && ids == MintIds(mint, i, |chunks|)
    ensures DocBatch(docs, i, embed, mint) == Batch(chunks, ids, Embeddings(chunks, embed), docs[i].0)
  {
  }

  /** The entries of `i + 1` documents are those of `i` and then document
      `i`'s batch. */
  lemma IngestedSnoc(docs: seq<Document>, i: nat, embed: string -> Option<Vector>, mint: (nat, nat) -> string)
    requires i < |docs|
    ensures Ingested(docs, i + 1, embed, mint) == Ingested(docs, i, embed, mint) + DocBatch(docs, i, embed, mint)
  {
    assert Batches(docs, embed, mint)[i] == DocBatch(docs, i, embed, mint);
  }

  /** A batch under document `doc`'s ids leaves the ids of later documents
      fresh. */
  lemma FreshAfterBatch(mint: (nat, nat) -> string, doc: nat, entries: seq<Entry>, chunks: seq<string>,
                        vectors: seq<Vector>, filename: string)
    requires Injective(mint) && FreshFrom(mint, doc, entries)
    requires |vectors| == |chunks|
    ensures FreshFrom(mint, doc + 1, entries + Batch(chunks, MintIds(mint, doc, |chunks|), vectors, filename))
  {
    var b := Batch(chunks, MintIds(mint, doc, |chunks|), vectors, filename);
    IdsOfAppend(entries, b);
    forall a: nat, c: nat | doc + 1 <= a ensures mint(a, c) !in IdsOf(b) {
      forall e | e in b ensures e.id != mint(a, c) {
        var k :| 0 <= k < |b| && b[k] == e;
        MintIdsAt(mint, doc, |chunks|, k);
      }
    }
  }

  /** A failing add never comes from an empty batch: every document has at
      least one chunk, so the error is the embedding service's or the
      collection's. */
  lemma DocErrorCause(doc: Document, embed: string -> Option<Vector>, storeOk: string -> bool)
    ensures DocError(doc, embed, storeOk) ==
      if !AllEmbeddable(DocChunks(doc), embed) then Some(AddFailed(EmbeddingUnavailable))
      else if !storeOk(doc.0) then Some(AddFailed(StoreRejected))
      else None
  {
    ChunksCount(doc.1, MaxChunkSize);
  }

  /** A run of entries all stored under one filename. */
  predicate AllTagged(b: seq<Entry>, filename: string) {
    forall e :: e in b ==> TaggedWith(e, filename)
  }

  /** Batch `k` holds entries of file `names[k]` only. */
  predicate FileBatches(bs: seq<seq<Entry>>, names: seq<string>) {
    |bs| == |names| && forall k :: 0 <= k < |bs| ==> AllTagged(bs[k], names[k])
  }

  /** A file none of the first `n` batches belongs to has no entry in them. */
  lemma {:induction false} JoinedMissesFile(bs: seq<seq<Entry>>, names: seq<string>, n: nat, f: string)
    requires FileBatches(bs, names) && n <= |bs|
    requires forall k :: 0 <= k < n ==> names[k] != f
    ensures OfFile(Joined(bs, n), f) == []
  {
    if n > 0 {
      JoinedMissesFile(bs, names, n - 1, f);
      OfFileAppend(Joined(bs, n - 1), bs[n - 1], f);
      NoneTaggedOfFile(bs[n - 1], f);
    }
  }

  /** With one batch per file, a file's entries are exactly its batch. */
  lemma {:induction false} JoinedOfFile(bs: seq<seq<Entry>>, names: seq<string>, n: nat, i: nat)
    requires FileBatches(bs, names) && n <= |bs|
    requires forall a, b :: 0 <= a < b < |names| ==> names[a] != names[b]
    requires i < n
    ensures OfFile(Joined(bs, n), names[i]) == bs[i]
  {
    var f := names[i];
    OfFileAppend(Joined(bs, n - 1), bs[n - 1], f);
    if i == n - 1 {
      JoinedMissesFile(bs, names, n - 1, f);
      AllTaggedOfFile(bs[n - 1], f);
    } else {
      JoinedOfFile(bs, names, n - 1, i);
      NoneTaggedOfFile(bs[n - 1], f);
    }
  }

  /** The chunks of document `i` are stored in order under its filename. */
  lemma DocBatchTagged(docs: seq<Document>, i: nat, embed: string -> Option<Vector>, mint: (nat, nat) -> string)
    requires i < |docs|
    ensures Documents(DocBatch(docs, i, embed, mint)) == DocChunks(docs[i])
    ensures AllTagged(DocBatch(docs, i, embed, mint), docs[i].0)
  {
    var chunks := DocChunks(docs[i]);
    BatchTagged(chunks, MintIds(mint, i, |chunks|), Embeddings(chunks, embed), docs[i].0);
  }

  lemma BatchesTagged(docs: seq<Document>, embed: string -> Option<Vector>, mint: (nat, nat) -> string)
    ensures FileBatches(Batches(docs, embed, mint), Filenames(docs))
  {
    var bs := Batches(docs, embed, mint);
    forall k | 0 <= k < |docs| ensures AllTagged(bs[k], docs[k].0) {
      DocBatchTagged(docs, k, embed, mint);
    }
  }

  /** Each of the first `n` documents is stored as exactly its own chunks, in
      order, under its filename. */
  lemma IngestedOfFile(docs: seq<Document>, n: nat, embed: string -> Option<Vector>,
                       mint: (nat, nat) -> string, i: nat)
    requires n <= |docs| && DistinctKeys(docs)
    requires i < n
    ensures Documents(OfFile(Ingested(docs, n, embed, mint), docs[i].0)) == DocChunks(docs[i])
    ensures AllTagged(OfFile(Ingested(docs, n, embed, mint), docs[i].0), docs[i].0)
  {
    BatchesTagged(docs, embed, mint);
    JoinedOfFile(Batches(docs, embed, mint), Filenames(docs), n, i);
    DocBatchTagged(docs, i, embed, mint);
  }

  /** A file none of the first `n` documents has gets no entry. */
  lemma IngestedMissesFile(docs: seq<Document>, n: nat, embed: string -> Option<Vector>,
                           mint: (nat, nat) -> string, f: string)
    requires n <= |docs|
    requires forall i :: 0 <= i < n ==> docs[i].0 != f
    ensures OfFile(Ingested(docs, n, embed, mint), f) == []
  {
    BatchesTagged(docs, embed, mint);
    JoinedMissesFile(Batches(docs, embed, mint), Filenames(docs), n, f);
  }

  /** Fail fast: when the add for document `k` raises, no document from `k` on
      has anything stored, and each earlier one is stored in full. */
  lemma FailFast(docs: seq<Document>, embed: string -> Option<Vector>, storeOk: string -> bool,
                 mint: (nat, nat) -> string, j: nat)
    requires DistinctKeys(docs) && j < |docs|
    ensures var k := FirstFailure(docs, embed, storeOk);
      j >= k ==> OfFile(Ingested(docs, k, embed, mint), docs[j].0) == []
    ensures var k := FirstFailure(docs, embed, storeOk);
      j < k ==> Documents(OfFile(Ingested(docs, k, embed, mint), docs[j].0)) == DocChunks(docs[j])
  {
    var k := FirstFailure(docs, embed, storeOk);
    if j >= k {
      IngestedMissesFile(docs, k, embed, mint, docs[j].0);
    } else {
      IngestedOfFile(docs, k, embed, mint, j);
    }
  }
}
