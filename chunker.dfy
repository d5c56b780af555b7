/** `chunk_text`: the greedy, word-aligned chunker. The text is split into
    words; words are added to a running chunk while a counter grows by each
    word's length plus one, and the chunk is closed as soon as the counter
    reaches the maximum chunk size. */
module Chunker {
  import opened Text

  /** The default `max_chunk_size` of `chunk_text`. */
  const DefaultMaxChunkSize := 1024

  /** The value `chunk_text`'s counter has after adding the words `ws`:
      one per word for the separating space, plus the word's length. */
  function Cost(ws: seq<string>): nat
  {
    if ws == [] then 0 else |ws[0]| + 1 + Cost(ws[1..])
  }

  /** The words of a list of groups, concatenated in order. */
  function Flatten(gs: seq<seq<string>>): seq<string>
  {
    if gs == [] then [] else gs[0] + Flatten(gs[1..])
  }

  /** The laws of the greedy grouping: the groups are the words in order,
      none is empty, the counter of every group except the last reached the
      limit, and no proper prefix of a group reached it (so the chunk was
      closed at the first word that made the counter reach the limit). */
  ghost predicate IsGreedyGrouping(ws: seq<string>, max: int, gs: seq<seq<string>>)
  {
    && Flatten(gs) == ws
    && (forall k :: 0 <= k < |gs| ==> gs[k] != [])
    && (forall k :: 0 <= k < |gs| - 1 ==> Cost(gs[k]) >= max)
    && (forall k :: 0 <= k < |gs| ==> PrefixesBelow(gs[k], max))
  }

  /** No proper non-empty prefix of the words `g` brings the counter to `max`. */
  ghost predicate PrefixesBelow(g: seq<string>, max: int)
  {
    forall j :: 1 <= j < |g| ==> Cost(g[..j]) < max
  }

  /** How many leading words of `ws` go into the first chunk: the shortest
      prefix whose counter reaches `max`, or all of `ws` if none does. */
  function FirstCut(ws: seq<string>, max: int): (n: nat)
    requires ws != []
    ensures 1 <= n <= |ws|
    ensures n == |ws| || Cost(ws[..n]) >= max
    ensures forall j :: 1 <= j < n ==> Cost(ws[..j]) < max
  {
    FirstCutFrom(ws, max, 1)
  }

  function FirstCutFrom(ws: seq<string>, max: int, k: nat): (n: nat)
    requires 1 <= k <= |ws|
    requires forall j :: 1 <= j < k ==> Cost(ws[..j]) < max
    ensures k <= n <= |ws|
    ensures n == |ws| || Cost(ws[..n]) >= max
    ensures forall j :: 1 <= j < n ==> Cost(ws[..j]) < max
    decreases |ws| - k
  {
    if k == |ws| || Cost(ws[..k]) >= max then k else FirstCutFrom(ws, max, k + 1)
  }

  /** The greedy grouping, defined chunk by chunk from the front. */
  function Groups(ws: seq<string>, max: int): seq<seq<string>>
    decreases |ws|
  {
    if ws == [] then []
    else
      var n := FirstCut(ws, max);
      [ws[..n]] + Groups(ws[n..], max)
  }

  /** What `chunk_text(text, max)` returns: each group of words joined by
      single spaces. */
  function Chunks(text: string, max: int): seq<string>
  {
    JoinEach(Groups(Words(text), max))
  }

  /** Each group of words joined by single spaces. */
  function JoinEach(gs: seq<seq<string>>): seq<string>
  {
    seq(|gs|, k requires 0 <= k < |gs| => Join(gs[k]))
  }

  /** Closed chunks: non-empty, counter at the limit, not closable earlier. */
  ghost predicate AllClosed(gs: seq<seq<string>>, max: int)
  {
    forall k :: 0 <= k < |gs| ==> gs[k] != [] && Cost(gs[k]) >= max && PrefixesBelow(gs[k], max)
  }

  /** The words of each chunk. */
  function ChunkWords(chunks: seq<string>): seq<seq<string>>
  {
    seq(|chunks|, k requires 0 <= k < |chunks| => Words(chunks[k]))
  }

  lemma {:induction false} CostAppend(a: seq<string>, b: seq<string>)
    ensures Cost(a + b) == Cost(a) + Cost(b)
  {
    if a == [] {
      assert a + b == b;
    } else {
      CostAppend(a[1..], b);
      assert (a + b)[0] == a[0];
      assert (a + b)[1..] == a[1..] + b;
    }
  }

  lemma {:induction false} FlattenAppend(gs: seq<seq<string>>, g: seq<string>)
    ensures Flatten(gs + [g]) == Flatten(gs) + g
  {
    if gs == [] {
      assert [g][1..] == [];
    } else {
      FlattenAppend(gs[1..], g);
      assert (gs + [g])[1..] == gs[1..] + [g];
    }
  }

  /** Every word of every group is one of the flattened words. */
  lemma {:induction false} FlattenHas(gs: seq<seq<string>>, k: nat, i: nat)
    requires k < |gs| && i < |gs[k]|
    ensures gs[k][i] in Flatten(gs)
  {
    if k == 0 {
      assert Flatten(gs)[i] == gs[0][i];
    } else {
      FlattenHas(gs[1..], k - 1, i);
    }
  }

  /** The counter after a joined chunk is its length plus one. */
  lemma {:induction false} CostOfJoin(ws: seq<string>)
    requires ws != []
    ensures Cost(ws) == |Join(ws)| + 1
  {
    if |ws| > 1 {
      CostOfJoin(ws[1..]);
    }
  }

  /** The groups after the first one obey the laws for the remaining words. */
  lemma GreedyTail(ws: seq<string>, max: int, gs: seq<seq<string>>)
    requires gs != [] && IsGreedyGrouping(ws, max, gs)
    ensures |gs[0]| <= |ws| && ws[..|gs[0]|] == gs[0]
    ensures IsGreedyGrouping(ws[|gs[0]|..], max, gs[1..])
  {
    assert ws == gs[0] + Flatten(gs[1..]);
    assert ws[|gs[0]|..] == Flatten(gs[1..]);
    forall k | 0 <= k < |gs[1..]|
      ensures PrefixesBelow(gs[1..][k], max)
    {
      assert gs[1..][k] == gs[k + 1];
    }
  }

  lemma PrefixOfPrefix<T>(s: seq<T>, a: seq<T>, b: seq<T>)
    requires |a| <= |b| <= |s| && s[..|a|] == a && s[..|b|] == b
    ensures b[..|a|] == a
  {
    assert b[..|a|] == s[..|a|];
  }

  /** The laws determine the grouping: at most one grouping of `ws` obeys them. */
  lemma {:induction false} GreedyGroupingUnique(ws: seq<string>, max: int, g1: seq<seq<string>>, g2: seq<seq<string>>)
    requires IsGreedyGrouping(ws, max, g1) && IsGreedyGrouping(ws, max, g2)
    ensures g1 == g2
    decreases |ws|
  {
    if g1 != [] && g2 != [] {
      GreedyTail(ws, max, g1);
      GreedyTail(ws, max, g2);
      var a, b := g1[0], g2[0];
      if |a| <= |b| {
        PrefixOfPrefix(ws, a, b);
      } else {
        PrefixOfPrefix(ws, b, a);
      }
      assert a == b;
      GreedyGroupingUnique(ws[|a|..], max, g1[1..], g2[1..]);
      assert g1 == [a] + g1[1..] && g2 == [b] + g2[1..];
    }
  }

  /** The reference grouping obeys the laws. */
  lemma {:induction false} GroupsAreGreedy(ws: seq<string>, max: int)
    ensures IsGreedyGrouping(ws, max, Groups(ws, max))
    decreases |ws|
  {
    if ws != [] {
      var n := FirstCut(ws, max);
      var rest := Groups(ws[n..], max);
      GroupsAreGreedy(ws[n..], max);
      var gs := Groups(ws, max);
      assert gs == [ws[..n]] + rest;
      assert Flatten(gs) == ws[..n] + Flatten(rest);
      assert ws == ws[..n] + ws[n..];
      forall k | 0 <= k < |gs| - 1
        ensures Cost(gs[k]) >= max
      {
        if k == 0 {
          assert rest != [];
        } else {
          assert gs[k] == rest[k - 1];
        }
      }
      forall k | 0 <= k < |gs|
        ensures PrefixesBelow(gs[k], max)
      {
        if k == 0 {
          forall j | 1 <= j < n
            ensures Cost(gs[0][..j]) < max
          {
            assert gs[0][..j] == ws[..j];
          }
        } else {
          assert gs[k] == rest[k - 1];
        }
      }
    }
  }

  /** The words of the chunks are the groups of the reference grouping. */
  lemma ChunkWordsAreGroups(text: string, max: int)
    ensures ChunkWords(Chunks(text, max)) == Groups(Words(text), max)
  {
    var ws := Words(text);
    var gs := Groups(ws, max);
    var cs := Chunks(text, max);
    GroupsAreGreedy(ws, max);
    forall k | 0 <= k < |gs|
      ensures Words(cs[k]) == gs[k]
    {
      forall i | 0 <= i < |gs[k]|
        ensures IsWord(gs[k][i])
      {
        FlattenHas(gs, k, i);
      }
      WordsOfJoin(gs[k]);
    }
  }

  /** `chunk_text` keeps the words of the text, in order, and groups them by
      the greedy laws: splitting each chunk back into words and concatenating
      gives exactly `text.split()`; no chunk is empty; every chunk but the
      last reached the limit; no chunk could have been closed earlier. */
  lemma ChunksAreGreedy(text: string, max: int)
    ensures IsGreedyGrouping(Words(text), max, ChunkWords(Chunks(text, max)))
  {
    ChunkWordsAreGroups(text, max);
    GroupsAreGreedy(Words(text), max);
  }

  /** In particular no word is lost, duplicated or reordered. */
  lemma ChunksPreserveWords(text: string, max: int)
    ensures Flatten(ChunkWords(Chunks(text, max))) == Words(text)
  {
    ChunksAreGreedy(text, max);
  }

  /** The text has no chunk exactly when it is empty or all whitespace. */
  lemma ChunksEmptyIffBlank(text: string, max: int)
    ensures Chunks(text, max) == [] <==> IsBlank(text)
  {
  }

  /** Every chunk is non-empty text in canonical form: its own words joined
      by single spaces, with no leading, trailing or doubled whitespace. */
  lemma ChunkIsCanonical(text: string, max: int, k: nat)
    requires k < |Chunks(text, max)|
    ensures var c := Chunks(text, max)[k];
      && Join(Words(c)) == c
      && c != [] && !IsSpace(c[0])
      && forall i :: 0 <= i < |c| && IsSpace(c[i]) ==> c[i] == ' ' && i + 1 < |c| && !IsSpace(c[i + 1])
  {
    var cs := Chunks(text, max);
    ChunksAreGreedy(text, max);
    ChunkWordsAreGroups(text, max);
    assert ChunkWords(cs)[k] == Words(cs[k]);
    JoinIsCanonical(Words(cs[k]));
  }

  /** The size of one group once joined: at least `max - 1` when its
      counter reached `max`, and over `max` by at most its last word. */
  lemma GroupSoftBound(ws: seq<string>, max: int)
    requires ws != [] && PrefixesBelow(ws, max)
    ensures Cost(ws) >= max ==> |Join(ws)| + 1 >= max
    ensures |ws| == 1 || |Join(ws)| - |ws[|ws| - 1]| < max
  {
    CostOfJoin(ws);
    if |ws| >= 2 {
      JoinLength(ws);
      CostOfJoin(ws[..|ws| - 1]);
    }
  }

  /** The soft size bound: every chunk except the last has length at least
      `max - 1` (its counter, length plus one, reached `max`), and a chunk of
      several words goes over the limit by at most its last word (without it,
      the counter was still below `max`). */
  lemma ChunkSoftBound(text: string, max: int, k: nat)
    requires k < |Chunks(text, max)|
    ensures var c := Chunks(text, max)[k];
      && (k < |Chunks(text, max)| - 1 ==> |c| + 1 >= max)
      && var ws := Words(c);
         |ws| >= 1 && (|ws| == 1 || |c| - |ws[|ws| - 1]| < max)
  {
    var gs := Groups(Words(text), max);
    GroupsAreGreedy(Words(text), max);
    ChunkWordsAreGroups(text, max);
    var ws := gs[k];
    assert Chunks(text, max)[k] == Join(ws);
    assert Words(Chunks(text, max)[k]) == ws;
    GroupSoftBound(ws, max);
  }

  /** A word whose own counter reaches the limit always ends its chunk: the
      chunk is closed right after it, and the word itself is never split. */
  lemma LongWordEndsChunk(text: string, max: int, k: nat, i: nat)
    requires k < |Chunks(text, max)|
    requires i < |Words(Chunks(text, max)[k])|
    requires |Words(Chunks(text, max)[k])[i]| + 1 >= max
    ensures i == |Words(Chunks(text, max)[k])| - 1
  {
    var cs := Chunks(text, max);
    ChunksAreGreedy(text, max);
    var ws := ChunkWords(cs)[k];
    assert ws == Words(cs[k]);
    if i < |ws| - 1 {
      assert ws[..i + 1] == ws[..i] + [ws[i]];
      CostAppend(ws[..i], [ws[i]]);
      assert false;
    }
  }

  /** A word that leaves the counter below the limit shares its chunk with
      the next word: the next word joins the open chunk however long it is,
      and the chunk closes only after it. */
  lemma SecondWordJoinsOpenChunk(w: string, long: string, max: int)
    requires IsWord(w) && IsWord(long)
    requires |w| + 1 < max
    ensures Chunks(w + " " + long, max) == [w + " " + long]
  {
    var ws := [w, long];
    assert Join(ws[1..]) == long;
    assert Join(ws) == w + " " + long;
    WordsOfJoin(ws);
    assert ws[..1] == [w] && Cost([w]) == |w| + 1;
    SingleGroup(ws, max);
  }

  /** `"b " + "a" * 10` with the limit 5 is one chunk, though the word
      `"a" * 10` alone goes over the limit. */
  lemma LongWordJoinsOpenChunkExample()
    ensures var long := seq(10, _ => 'a');
      Chunks("b " + long, 5) == ["b " + long]
  {
    var long := seq(10, _ => 'a');
    assert IsWord("b") && IsWord(long);
    SecondWordJoinsOpenChunk("b", long, 5);
    assert "b" + " " + long == "b " + long;
  }

  /** A word whose counter reaches the limit with no chunk open is a chunk of
      its own: the chunk closes right after it, and the next word starts a
      new one. */
  lemma LongWordAloneWhenNoChunkOpen(long: string, w: string, max: int)
    requires IsWord(long) && IsWord(w)
    requires |long| + 1 >= max
    ensures Chunks(long + " " + w, max) == [long, w]
  {
    var ws := [long, w];
    assert Join(ws[1..]) == w;
    assert Join(ws) == long + " " + w;
    WordsOfJoin(ws);
    var gs := [[long], [w]];
    assert Flatten(gs[1..]) == [w] + Flatten([]);
    assert Flatten(gs) == ws;
    assert Cost([long]) == |long| + 1;
    assert IsGreedyGrouping(ws, max, gs);
    GroupsAreGreedy(ws, max);
    GreedyGroupingUnique(ws, max, gs, Groups(ws, max));
    assert JoinEach(gs) == [Join([long]), Join([w])];
  }

  /** `"a" * 10 + " b"` with the limit 5 is two chunks: the long word opens
      the text, so it is a chunk of its own. */
  lemma LongWordAloneExample()
    ensures var long := seq(10, _ => 'a');
      Chunks(long + " b", 5) == [long, "b"]
  {
    var long := seq(10, _ => 'a');
    assert IsWord("b") && IsWord(long);
    LongWordAloneWhenNoChunkOpen(long, "b", 5);
    assert long + " " + "b" == long + " b";
  }

  /** Words that no proper prefix of brings the counter to the limit form a
      single group. */
  lemma SingleGroup(ws: seq<string>, max: int)
    requires ws != [] && PrefixesBelow(ws, max)
    ensures Groups(ws, max) == [ws]
  {
    assert Flatten([ws]) == ws + Flatten([]);
    GroupsAreGreedy(ws, max);
    GreedyGroupingUnique(ws, max, [ws], Groups(ws, max));
  }

  /** A text whose words, joined by single spaces, are shorter than `max`
      is not cut: it is the single chunk of its words joined. */
  lemma ShortTextOneChunk(text: string, max: int)
    requires !IsBlank(text)
    requires |Join(Words(text))| < max
    ensures Chunks(text, max) == [Join(Words(text))]
  {
    var ws := Words(text);
    CostOfJoin(ws);
    forall j | 1 <= j < |ws|
      ensures Cost(ws[..j]) < max
    {
      assert ws == ws[..j] + ws[j..];
      CostAppend(ws[..j], ws[j..]);
      assert Cost(ws[j..]) >= |ws[j]| + 1;
    }
    SingleGroup(ws, max);
  }

  /** A text of a single word is a single chunk, however long the word: the
      example of `"a" * 2000` with the default size 1024 is one chunk. */
  lemma OneWordOneChunk(text: string, max: int)
    requires |Words(text)| == 1
    ensures Chunks(text, max) == Words(text)
  {
    SingleGroup(Words(text), max);
  }

  lemma LongWordExample()
    ensures var a := seq(2000, _ => 'a');
      Chunks(a, DefaultMaxChunkSize) == [a]
  {
    var a := seq(2000, _ => 'a');
    WordsAfterWord(a, "");
    assert a + "" == a;
    OneWordOneChunk(a, DefaultMaxChunkSize);
  }

  /** `"hello world"` splits into its two words. */
  lemma HelloWorldWords()
    ensures Words("hello world") == ["hello", "world"]
  {
    var ws := ["hello", "world"];
    assert IsWord(ws[0]) && IsWord(ws[1]);
    assert Join(ws[1..]) == "world";
    assert Join(ws) == "hello world";
    WordsOfJoin(ws);
  }

  /** `chunk_text("hello world")` is the single chunk `"hello world"`. */
  lemma HelloWorldOneChunk()
    ensures Chunks("hello world", DefaultMaxChunkSize) == ["hello world"]
  {
    assert IsWord("hello") && IsWord("world");
    SecondWordJoinsOpenChunk("hello", "world", DefaultMaxChunkSize);
    assert "hello" + " " + "world" == "hello world";
  }

  /** Joining one more group appends one more chunk. */
  lemma JoinEachAppend(gs: seq<seq<string>>, g: seq<string>)
    ensures JoinEach(gs + [g]) == JoinEach(gs) + [Join(g)]
  {
  }

  /** The state of `chunk_text`'s loop after the words `prefix`: the closed
      groups followed by the open chunk are those words, every closed group
      is closed, and no prefix of the open chunk reached the limit. */
  ghost predicate Scanned(prefix: seq<string>, groups: seq<seq<string>>, chunk: seq<string>, max: int)
  {
    && Flatten(groups) + chunk == prefix
    && AllClosed(groups, max)
    && PrefixesBelow(chunk, max)
  }

  /** Adding a word to a chunk whose counter is still below the limit. */
  lemma ScanWord(prefix: seq<string>, groups: seq<seq<string>>, chunk: seq<string>, w: string, max: int)
    requires Scanned(prefix, groups, chunk, max)
    requires chunk == [] || Cost(chunk) < max
    ensures Scanned(prefix + [w], groups, chunk + [w], max)
    ensures Cost(chunk + [w]) == Cost(chunk) + |w| + 1
  {
    var c := chunk + [w];
    CostAppend(chunk, [w]);
    forall j | 1 <= j < |c|
      ensures Cost(c[..j]) < max
    {
      if j == |chunk| {
        assert c[..j] == chunk;
      } else {
        assert c[..j] == chunk[..j];
      }
    }
    assert Flatten(groups) + c == (Flatten(groups) + chunk) + [w];
  }

  /** Closing a chunk whose counter reached the limit. */
  lemma CloseChunk(prefix: seq<string>, groups: seq<seq<string>>, chunk: seq<string>, max: int)
    requires Scanned(prefix, groups, chunk, max)
    requires chunk != [] && Cost(chunk) >= max
    ensures Scanned(prefix, groups + [chunk], [], max)
    ensures JoinEach(groups + [chunk]) == JoinEach(groups) + [Join(chunk)]
  {
    FlattenAppend(groups, chunk);
    assert Flatten(groups + [chunk]) + [] == Flatten(groups + [chunk]);
    JoinEachAppend(groups, chunk);
  }

  /** After the last word: the closed groups followed by the open chunk, if
      any, are the reference grouping. */
  lemma FinishGrouping(words: seq<string>, max: int, groups: seq<seq<string>>, chunk: seq<string>)
    requires Scanned(words, groups, chunk, max)
    ensures chunk == [] ==> Groups(words, max) == groups
    ensures chunk != [] ==> Groups(words, max) == groups + [chunk]
  {
    var gs := if chunk == [] then groups else groups + [chunk];
    if chunk == [] {
      assert Flatten(groups) + chunk == Flatten(groups);
    } else {
      FlattenAppend(groups, chunk);
    }
    assert IsGreedyGrouping(words, max, gs);
    GroupsAreGreedy(words, max);
    GreedyGroupingUnique(words, max, gs, Groups(words, max));
  }

  /** `chunk_text(text, max_chunk_size)`: a single pass over the words with
      a running chunk and counter. */
  method ChunkText(text: string, maxChunkSize: int) returns (chunks: seq<string>)
    ensures chunks == Chunks(text, maxChunkSize)
  {
    var words := Words(text);
    chunks := [];
    var currentChunk: seq<string> := [];
    var currentLength := 0;
    ghost var groups: seq<seq<string>> := [];

    for i := 0 to |words|
      invariant Scanned(words[..i], groups, currentChunk, maxChunkSize)
      invariant currentChunk == [] || Cost(currentChunk) < maxChunkSize
      invariant currentLength == Cost(currentChunk)
      invariant chunks == JoinEach(groups)
    {
      var word := words[i];
      ScanWord(words[..i], groups, currentChunk, word, maxChunkSize);
      assert words[..i + 1] == words[..i] + [word];
      currentChunk := currentChunk + [word];
      currentLength := currentLength + |word| + 1;
      if currentLength >= maxChunkSize {
        CloseChunk(words[..i + 1], groups, currentChunk, maxChunkSize);
        chunks := chunks + [Join(currentChunk)];
        groups := groups + [currentChunk];
        currentChunk := [];
        currentLength := 0;
      }
    }

    assert words[..|words|] == words;
    FinishGrouping(words, maxChunkSize, groups, currentChunk);
    if currentChunk != [] {
      JoinEachAppend(groups, currentChunk);
      chunks := chunks + [Join(currentChunk)];
    }
  }
}
