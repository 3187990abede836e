/** Word chunking of `src/cli/containers.rs`: `truncate_words` packs the
    whitespace-separated words of a text greedily into chunks of at most
    `chunk_size` bytes, one space between words; `truncate` applies it to a
    table cell whose content is longer than the limit, one chunk per line.

    Strings are sequences of Unicode scalar values; Rust's `len()` counts
    their UTF-8 bytes, which is `Len` here.  `split_whitespace` is `Words`, a
    reference definition that splits at every character Rust's
    `char::is_whitespace` accepts. */
module WordChunks {
  import opened Blocks

  // ------------------------------------------------------------ bytes

  /** Bytes of `c` in UTF-8. */
  function Utf8Width(c: char): nat
  {
    if c as int < 0x80 then 1 else if c as int < 0x800 then 2 else if c as int < 0x1_0000 then 3 else 4
  }

  /** `str::len`: the UTF-8 length in bytes. */
  function Len(s: string): nat
  {
    if s == [] then 0 else Utf8Width(s[0]) + Len(s[1..])
  }

  /** Byte lengths add up; each character takes at least one byte. */
  lemma {:induction false} LenAppend(a: string, b: string)
    ensures Len(a + b) == Len(a) + Len(b)
    ensures |a| <= Len(a)
  {
    if a != [] {
      assert (a + b)[0] == a[0];
      assert (a + b)[1..] == a[1..] + b;
      LenAppend(a[1..], b);
    } else {
      assert a + b == b;
    }
  }

  // ------------------------------------------------------------ words

  /** `char::is_whitespace`: the Unicode `White_Space` characters. */
  predicate IsWhitespace(c: char)
  {
    var k := c as int;
    || (0x09 <= k <= 0x0D) || k == 0x20 || k == 0x85 || k == 0xA0 || k == 0x1680
    || (0x2000 <= k <= 0x200A) || k == 0x2028 || k == 0x2029 || k == 0x202F || k == 0x205F || k == 0x3000
  }

  /** What `split_whitespace` yields: non-empty, and free of whitespace. */
  predicate IsWord(w: string)
  {
    w != [] && forall j :: 0 <= j < |w| ==> !IsWhitespace(w[j])
  }

  predicate AllWords(ws: seq<string>)
  {
    forall i :: 0 <= i < |ws| ==> IsWord(ws[i])
  }

  /** `split_whitespace`: the maximal runs of non-whitespace characters, in
      order.  A character extends the word that follows it when the next
      character is not whitespace, and starts a word of its own otherwise. */
  function Words(s: string): (ws: seq<string>)
    ensures AllWords(ws)
    ensures s != [] && !IsWhitespace(s[0]) ==> ws != [] && ws[0][0] == s[0]
    decreases |s|
  {
    if s == [] then []
    else
      var rest := Words(s[1..]);
      if IsWhitespace(s[0]) then rest
      else if 1 < |s| && !IsWhitespace(s[1]) then [[s[0]] + rest[0]] + rest[1..]
      else [[s[0]]] + rest
  }

  /** A whitespace character separates: the words of `a c b` are the words
      of `a` followed by the words of `b`. */
  lemma {:induction false} WordsAroundSpace(a: string, c: char, b: string)
    requires IsWhitespace(c)
    ensures Words(a + [c] + b) == Words(a) + Words(b)
    decreases |a|
  {
    if a == [] {
      assert a + [c] + b == [c] + b;
      assert ([c] + b)[1..] == b;
    } else {
      assert (a + [c] + b)[1..] == a[1..] + [c] + b;
      WordsAroundSpace(a[1..], c, b);
      if !IsWhitespace(a[0]) && 1 < |a| && !IsWhitespace(a[1]) {
        assert (a + [c] + b)[1] == a[1];
      }
    }
  }

  /** A word splits into itself. */
  lemma {:induction false} WordsOfWord(w: string)
    requires IsWord(w)
    ensures Words(w) == [w]
    decreases |w|
  {
    if 1 < |w| {
      assert IsWord(w[1..]) && w[1..][0] == w[1];
      WordsOfWord(w[1..]);
      assert [w[0]] + w[1..] == w;
    } else {
      assert [w[0]] == w;
    }
  }

  // ------------------------------------------------------------- joins

  /** `join(sep)` on single-character separators: the parts with `sep` between them. */
  function Join(parts: seq<string>, sep: char): string
  {
    if |parts| == 0 then []
    else if |parts| == 1 then parts[0]
    else Join(parts[..|parts| - 1], sep) + [sep] + parts[|parts| - 1]
  }

  /** Appending a part to a join appends the separator and the part. */
  lemma JoinSnoc(parts: seq<string>, p: string, sep: char)
    requires parts != []
    ensures Join(parts + [p], sep) == Join(parts, sep) + [sep] + p
  {
    assert (parts + [p])[..|parts|] == parts;
  }

  /** A join is empty only when there is nothing to join or the one part is empty. */
  lemma {:induction false} JoinOfWords(parts: seq<string>, sep: char)
    requires AllWords(parts)
    ensures Join(parts, sep) == [] <==> parts == []
    ensures Len(Join(parts, sep)) >= |parts|
    decreases |parts|
  {
    if 1 < |parts| {
      var init := parts[..|parts| - 1];
      JoinOfWords(init, sep);
      LenAppend(Join(init, sep) + [sep], parts[|parts| - 1]);
      LenAppend(Join(init, sep), [sep]);
      LenAppend(parts[|parts| - 1], []);
    } else if |parts| == 1 {
      LenAppend(parts[0], []);
    }
  }

  /** The words of every part, one after the other. */
  function ConcatWords(parts: seq<string>): seq<string>
  {
    if parts == [] then [] else ConcatWords(parts[..|parts| - 1]) + Words(parts[|parts| - 1])
  }

  /** Joining with whitespace and splitting at whitespace keeps every part's
      words, in order. */
  lemma {:induction false} WordsOfJoin(parts: seq<string>, sep: char)
    requires IsWhitespace(sep)
    ensures Words(Join(parts, sep)) == ConcatWords(parts)
    decreases |parts|
  {
    if |parts| == 1 {
      assert parts[..0] == [];
    } else if 1 < |parts| {
      var init := parts[..|parts| - 1];
      WordsOfJoin(init, sep);
      WordsAroundSpace(Join(init, sep), sep, parts[|parts| - 1]);
    }
  }

  /** Splitting words joined by spaces gives the words back. */
  lemma {:induction false} SplitJoinedWords(ws: seq<string>)
    requires AllWords(ws)
    ensures Words(Join(ws, ' ')) == ws
    decreases |ws|
  {
    WordsOfJoin(ws, ' ');
    ConcatOfWords(ws);
  }

  lemma {:induction false} ConcatOfWords(ws: seq<string>)
    requires AllWords(ws)
    ensures ConcatWords(ws) == ws
    decreases |ws|
  {
    if ws != [] {
      var init, last := ws[..|ws| - 1], ws[|ws| - 1];
      assert AllWords(init) by {
        forall i | 0 <= i < |init| ensures IsWord(init[i]) { assert init[i] == ws[i]; }
      }
      ConcatOfWords(init);
      WordsOfWord(last);
      assert ConcatWords(ws) == init + [last];
      assert init + [last] == ws;
    }
  }

  // ------------------------------------------------------------ chunks

  /** The loop of `truncate_words` from the state (`chunks`, `chunk`) over
      the words `ws` still to come, then the final push. */
  function PackFrom(ws: seq<string>, chunkSize: nat, chunks: seq<string>, chunk: string): seq<string>
    decreases |ws|
  {
    if ws == [] then
      if chunk != [] then chunks + [chunk] else chunks
    else
      var word := ws[0];
      if Len(chunk) + Len(word) > chunkSize then PackFrom(ws[1..], chunkSize, chunks + [chunk], word)
      else PackFrom(ws[1..], chunkSize, chunks, (if chunk != [] then chunk + " " else chunk) + word)
  }

  /** `truncate_words`. */
  function TruncateWords(s: string, chunkSize: nat): seq<string>
  {
    PackFrom(Words(s), chunkSize, [], [])
  }

  /** `TruncatedCell::truncate` on the cell's content: unchanged when it is
      short enough, otherwise its chunks one per line. */
  function Truncate(content: string, maxLength: nat): (r: string)
    ensures Len(content) <= maxLength ==> r == content
  {
    if Len(content) > maxLength then Join(TruncateWords(content, maxLength), '\n') else content
  }

  // ------------------------------------------- the same loop on word lists

  /** Each group joined by single spaces. */
  function JoinEach(groups: seq<seq<string>>): (chunks: seq<string>)
    ensures |chunks| == |groups|
  {
    seq(|groups|, i requires 0 <= i < |groups| => Join(groups[i], ' '))
  }

  /** The loop of `truncate_words` with each chunk kept as its list of words. */
  function GroupFrom(ws: seq<string>, chunkSize: nat, groups: seq<seq<string>>, group: seq<string>): seq<seq<string>>
    decreases |ws|
  {
    if ws == [] then
      if group != [] then groups + [group] else groups
    else if Len(Join(group, ' ')) + Len(ws[0]) > chunkSize then GroupFrom(ws[1..], chunkSize, groups + [group], [ws[0]])
    else GroupFrom(ws[1..], chunkSize, groups, group + [ws[0]])
  }

  /** The string loop is the word-list loop with each group joined. */
  lemma {:induction false} PackMatchesGroups(ws: seq<string>, chunkSize: nat, groups: seq<seq<string>>, group: seq<string>)
    requires AllWords(ws) && AllWords(group)
    ensures PackFrom(ws, chunkSize, JoinEach(groups), Join(group, ' '))
      == JoinEach(GroupFrom(ws, chunkSize, groups, group))
    decreases |ws|
  {
    JoinOfWords(group, ' ');
    var chunk := Join(group, ' ');
    if ws == [] {
      assert JoinEach(groups) + [chunk] == JoinEach(groups + [group]);
    } else {
      var word := ws[0];
      assert AllWords(ws[1..]);
      if Len(chunk) + Len(word) > chunkSize {
        assert JoinEach(groups) + [chunk] == JoinEach(groups + [group]);
        assert Join([word], ' ') == word;
        PackMatchesGroups(ws[1..], chunkSize, groups + [group], [word]);
      } else {
        if group == [] {
          assert Join(group + [word], ' ') == word by { assert group + [word] == [word]; }
          assert (if chunk != [] then chunk + " " else chunk) + word == word;
        } else {
          JoinSnoc(group, word, ' ');
          assert (if chunk != [] then chunk + " " else chunk) + word == Join(group + [word], ' ');
        }
        assert AllWords(group + [word]);
        PackMatchesGroups(ws[1..], chunkSize, groups, group + [word]);
      }
    }
  }

  // ------------------------------------------------------- greediness

  /** Inside a chunk every word after the first fitted: the chunk so far
      plus the word was at most `chunkSize` bytes (the space not counted). */
  predicate FillsWhileRoom(group: seq<string>, chunkSize: nat)
  {
    forall j :: 0 < j < |group| ==> Len(Join(group[..j], ' ')) + Len(group[j]) <= chunkSize
  }

  /** A new chunk starts only when the next word does not fit: every chunk
      after the first has a first word, and that word would have taken the
      chunk before it past `chunkSize`. */
  predicate BreaksWhenFull(groups: seq<seq<string>>, chunkSize: nat)
  {
    forall i :: 1 <= i < |groups| ==> groups[i] != [] && Len(Join(groups[i - 1], ' ')) + Len(groups[i][0]) > chunkSize
  }

  predicate Greedy(groups: seq<seq<string>>, chunkSize: nat)
  {
    && BreaksWhenFull(groups, chunkSize)
    && forall i :: 0 <= i < |groups| ==> FillsWhileRoom(groups[i], chunkSize)
  }

  predicate AllWordsIn(groups: seq<seq<string>>)
  {
    forall i :: 0 <= i < |groups| ==> AllWords(groups[i])
  }

  /** Closing the current chunk because the next one starts with a word that does not fit. */
  lemma GreedyBreak(groups: seq<seq<string>>, group: seq<string>, chunkSize: nat)
    requires Greedy(groups, chunkSize) && FillsWhileRoom(group, chunkSize)
    requires groups != [] ==> group != [] && Len(Join(groups[|groups| - 1], ' ')) + Len(group[0]) > chunkSize
    ensures Greedy(groups + [group], chunkSize)
  {
    var all := groups + [group];
    forall i | 1 <= i < |all|
      ensures all[i] != [] && Len(Join(all[i - 1], ' ')) + Len(all[i][0]) > chunkSize
    {
      if i < |groups| {
        assert all[i] == groups[i] && all[i - 1] == groups[i - 1];
      }
    }
  }

  /** Adding a word that fits to the current chunk. */
  lemma GreedyGrow(groups: seq<seq<string>>, group: seq<string>, w: string, chunkSize: nat)
    requires Greedy(groups + [group], chunkSize)
    requires groups != [] ==> group != []
    requires group != [] ==> Len(Join(group, ' ')) + Len(w) <= chunkSize
    ensures Greedy(groups + [group + [w]], chunkSize)
  {
    var grown := group + [w];
    assert FillsWhileRoom(group, chunkSize) by {
      assert (groups + [group])[|groups|] == group;
    }
    forall j | 0 < j < |grown|
      ensures Len(Join(grown[..j], ' ')) + Len(grown[j]) <= chunkSize
    {
      if j < |group| {
        assert grown[..j] == group[..j] && grown[j] == group[j];
      } else {
        assert grown[..j] == group;
      }
    }
    assert Greedy(groups, chunkSize) by {
      forall i | 0 <= i < |groups|
        ensures FillsWhileRoom(groups[i], chunkSize)
      {
        assert (groups + [group])[i] == groups[i];
      }
      forall i | 1 <= i < |groups|
        ensures groups[i] != [] && Len(Join(groups[i - 1], ' ')) + Len(groups[i][0]) > chunkSize
      {
        assert (groups + [group])[i] == groups[i] && (groups + [group])[i - 1] == groups[i - 1];
      }
    }
    if groups != [] {
      assert (groups + [group])[|groups|] == group && (groups + [group])[|groups| - 1] == groups[|groups| - 1];
    }
    GreedyBreak(groups, grown, chunkSize);
  }

  /** The loop keeps every word, in order: closed chunks, then the current
      one, then the words still to come. */
  lemma {:induction false} GroupFromKeepsWords(ws: seq<string>, chunkSize: nat, groups: seq<seq<string>>, group: seq<string>)
    ensures Flatten(GroupFrom(ws, chunkSize, groups, group)) == Flatten(groups) + group + ws
    decreases |ws|
  {
    assert (groups + [group])[..|groups|] == groups;
    if ws != [] {
      var w := ws[0];
      assert [w] + ws[1..] == ws;
      if Len(Join(group, ' ')) + Len(w) > chunkSize {
        GroupFromKeepsWords(ws[1..], chunkSize, groups + [group], [w]);
      } else {
        GroupFromKeepsWords(ws[1..], chunkSize, groups, group + [w]);
      }
    }
  }

  /** The loop never reopens a closed chunk, and the current chunk, if it
      has a word, ends up as the next chunk with the same first word. */
  lemma {:induction false} GroupFromExtends(ws: seq<string>, chunkSize: nat, groups: seq<seq<string>>, group: seq<string>)
    ensures
      var r := GroupFrom(ws, chunkSize, groups, group);
      && |groups| <= |r| && r[..|groups|] == groups
      && (group != [] || ws != [] ==> |groups| < |r|)
      && (group != [] ==> |groups| < |r| && r[|groups|] != [] && r[|groups|][0] == group[0])
    decreases |ws|
  {
    var all := groups + [group];
    assert all[..|groups|] == groups;
    if ws != [] {
      var w := ws[0];
      if Len(Join(group, ' ')) + Len(w) > chunkSize {
        GroupFromExtends(ws[1..], chunkSize, all, [w]);
        var r := GroupFrom(ws[1..], chunkSize, all, [w]);
        assert r[..|groups|] == r[..|all|][..|groups|];
        assert r[|groups|] == r[..|all|][|groups|];
      } else {
        GroupFromExtends(ws[1..], chunkSize, groups, group + [w]);
      }
    }
  }

  /** The loop's chunking is greedy, and its last chunk has a word. */
  lemma {:induction false} GroupFromGreedy(ws: seq<string>, chunkSize: nat, groups: seq<seq<string>>, group: seq<string>)
    requires Greedy(groups + [group], chunkSize)
    requires group == [] ==> groups == []
    ensures Greedy(GroupFrom(ws, chunkSize, groups, group), chunkSize)
    ensures var r := GroupFrom(ws, chunkSize, groups, group); r != [] ==> r[|r| - 1] != []
    decreases |ws|
  {
    if ws == [] {
      if group == [] {
        assert groups == [];
      } else {
        assert (groups + [group])[..|groups|] == groups;
      }
    } else {
      var w := ws[0];
      if Len(Join(group, ' ')) + Len(w) > chunkSize {
        GreedyBreak(groups + [group], [w], chunkSize);
        GroupFromGreedy(ws[1..], chunkSize, groups + [group], [w]);
      } else {
        GreedyGrow(groups, group, w, chunkSize);
        GroupFromGreedy(ws[1..], chunkSize, groups, group + [w]);
      }
    }
  }

  /** Every chunk of the loop holds words only. */
  lemma {:induction false} GroupFromWords(ws: seq<string>, chunkSize: nat, groups: seq<seq<string>>, group: seq<string>)
    requires AllWordsIn(groups) && AllWords(group) && AllWords(ws)
    ensures AllWordsIn(GroupFrom(ws, chunkSize, groups, group))
    decreases |ws|
  {
    if ws != [] {
      var w := ws[0];
      assert AllWords(ws[1..]) && AllWords(group + [w]);
      assert AllWordsIn(groups + [group]);
      if Len(Join(group, ' ')) + Len(w) > chunkSize {
        GroupFromWords(ws[1..], chunkSize, groups + [group], [w]);
      } else {
        GroupFromWords(ws[1..], chunkSize, groups, group + [w]);
      }
    } else {
      assert AllWordsIn(groups + [group]);
    }
  }

  /** The chunking of `truncate_words`, as lists of words. */
  function Groups(ws: seq<string>, chunkSize: nat): seq<seq<string>>
  {
    GroupFrom(ws, chunkSize, [], [])
  }

  /** The groups keep every word in order and are greedy; only the first
      can be empty, exactly when the first word alone is too long. */
  lemma GroupsSpec(ws: seq<string>, chunkSize: nat)
    requires AllWords(ws)
    ensures
      var g := Groups(ws, chunkSize);
      && Flatten(g) == ws && Greedy(g, chunkSize) && AllWordsIn(g)
      && (g == [] <==> ws == [])
      && (g != [] ==> g[|g| - 1] != [])
      && (g != [] ==> (g[0] == [] <==> Len(ws[0]) > chunkSize))
  {
    assert Greedy([] + [[]], chunkSize);
    GroupFromKeepsWords(ws, chunkSize, [], []);
    GroupFromGreedy(ws, chunkSize, [], []);
    GroupFromWords(ws, chunkSize, [], []);
    GroupFromExtends(ws, chunkSize, [], []);
    if ws != [] {
      assert Join([], ' ') == [];
      if Len(ws[0]) > chunkSize {
        var none: seq<seq<string>> := [];
        assert none + [[]] == [[]];
        assert Groups(ws, chunkSize) == GroupFrom(ws[1..], chunkSize, [[]], [ws[0]]);
        GroupFromExtends(ws[1..], chunkSize, [[]], [ws[0]]);
        assert Groups(ws, chunkSize)[..1] == [[]];
      } else {
        var none: seq<seq<string>> := [];
        var blank: seq<string> := [];
        assert blank + [ws[0]] == [ws[0]];
        assert Groups(ws, chunkSize) == GroupFrom(ws[1..], chunkSize, none, [ws[0]]);
        GroupFromExtends(ws[1..], chunkSize, none, [ws[0]]);
      }
    }
  }

  // --------------------------------------------------- what the chunks are

  /** The words of every chunk. */
  function WordsEach(chunks: seq<string>): (groups: seq<seq<string>>)
    ensures |groups| == |chunks|
  {
    seq(|chunks|, i requires 0 <= i < |chunks| => Words(chunks[i]))
  }

  /** The chunks are the greedy groups joined by single spaces, and
      splitting a chunk gives its group back. */
  lemma ChunksAreGroups(s: string, chunkSize: nat)
    ensures TruncateWords(s, chunkSize) == JoinEach(Groups(Words(s), chunkSize))
    ensures WordsEach(TruncateWords(s, chunkSize)) == Groups(Words(s), chunkSize)
  {
    var none: seq<seq<string>> := [];
    assert JoinEach(none) == [];
    assert Join([], ' ') == [];
    PackMatchesGroups(Words(s), chunkSize, none, []);
    GroupsSpec(Words(s), chunkSize);
    var g := Groups(Words(s), chunkSize);
    forall i | 0 <= i < |g|
      ensures Words(JoinEach(g)[i]) == g[i]
    {
      SplitJoinedWords(g[i]);
    }
  }

  /** Splitting every chunk and concatenating gives back the flattened groups. */
  lemma {:induction false} ConcatWordsOfGroups(groups: seq<seq<string>>)
    requires AllWordsIn(groups)
    ensures ConcatWords(JoinEach(groups)) == Flatten(groups)
    decreases |groups|
  {
    if groups != [] {
      var init := groups[..|groups| - 1];
      assert JoinEach(groups)[..|groups| - 1] == JoinEach(init);
      ConcatWordsOfGroups(init);
      SplitJoinedWords(groups[|groups| - 1]);
    }
  }

  /** A chunk of two or more words is the chunk before its last word, one
      space, and the last word. */
  lemma JoinLen(g: seq<string>)
    requires 2 <= |g|
    ensures Len(Join(g, ' ')) == Len(Join(g[..|g| - 1], ' ')) + 1 + Len(g[|g| - 1])
  {
    var init := Join(g[..|g| - 1], ' ');
    LenAppend(init + [' '], g[|g| - 1]);
    LenAppend(init, [' ']);
    LenAppend([' '], []);
  }

  /** Concatenating the words of all chunks reproduces the words of the input, in order. */
  lemma ChunksKeepWords(s: string, chunkSize: nat)
    ensures ConcatWords(TruncateWords(s, chunkSize)) == Words(s)
  {
    ChunksAreGroups(s, chunkSize);
    GroupsSpec(Words(s), chunkSize);
    ConcatWordsOfGroups(Groups(Words(s), chunkSize));
  }

  /** Within a chunk the words are joined by exactly one space. */
  lemma ChunksSingleSpaced(s: string, chunkSize: nat)
    ensures var chunks := TruncateWords(s, chunkSize);
      forall i :: 0 <= i < |chunks| ==> chunks[i] == Join(Words(chunks[i]), ' ')
  {
    ChunksAreGroups(s, chunkSize);
    var chunks := TruncateWords(s, chunkSize);
    forall i | 0 <= i < |chunks|
      ensures chunks[i] == Join(Words(chunks[i]), ' ')
    {
      assert WordsEach(chunks)[i] == Words(chunks[i]);
    }
  }

  /** A new chunk starts only when the next word would take the current one
      past `chunk_size` (`chunk.len() + word.len() > chunk_size`), and a word
      joins the current chunk whenever it fits. */
  lemma ChunksBreakOnlyWhenFull(s: string, chunkSize: nat)
    ensures var chunks := TruncateWords(s, chunkSize);
      forall i :: 1 <= i < |chunks| ==>
        Words(chunks[i]) != [] && Len(chunks[i - 1]) + Len(Words(chunks[i])[0]) > chunkSize
    ensures var chunks := TruncateWords(s, chunkSize);
      forall i :: 0 <= i < |chunks| ==> FillsWhileRoom(Words(chunks[i]), chunkSize)
  {
    ChunksAreGroups(s, chunkSize);
    GroupsSpec(Words(s), chunkSize);
    var chunks := TruncateWords(s, chunkSize);
    var g := Groups(Words(s), chunkSize);
    forall i | 0 <= i < |chunks|
      ensures Words(chunks[i]) == g[i] && chunks[i] == Join(g[i], ' ')
    {
      assert WordsEach(chunks)[i] == Words(chunks[i]);
    }
  }

  /** A chunk of two or more words is at most `chunk_size + 1` bytes long:
      the test does not count the space before the word it adds.  (A chunk
      of one word may be longer: a long word is never split.) */
  lemma ChunkLengthBound(s: string, chunkSize: nat)
    ensures var chunks := TruncateWords(s, chunkSize);
      forall i :: 0 <= i < |chunks| && 2 <= |Words(chunks[i])| ==> Len(chunks[i]) <= chunkSize + 1
  {
    ChunksBreakOnlyWhenFull(s, chunkSize);
    ChunksSingleSpaced(s, chunkSize);
    var chunks := TruncateWords(s, chunkSize);
    forall i | 0 <= i < |chunks| && 2 <= |Words(chunks[i])|
      ensures Len(chunks[i]) <= chunkSize + 1
    {
      var g := Words(chunks[i]);
      JoinLen(g);
      assert FillsWhileRoom(g, chunkSize);
    }
  }

  /** Only the first chunk can be empty, and it is empty exactly when the
      first word alone is longer than `chunk_size` (the empty chunk is pushed
      before that word). */
  lemma OnlyFirstChunkEmpty(s: string, chunkSize: nat)
    ensures var chunks := TruncateWords(s, chunkSize);
      forall i :: 0 < i < |chunks| ==> chunks[i] != []
    ensures var chunks := TruncateWords(s, chunkSize);
      chunks != [] ==> (chunks[0] == [] <==> Len(Words(s)[0]) > chunkSize)
  {
    ChunksAreGroups(s, chunkSize);
    GroupsSpec(Words(s), chunkSize);
    var chunks := TruncateWords(s, chunkSize);
    var g := Groups(Words(s), chunkSize);
    forall i | 0 <= i < |chunks|
      ensures chunks[i] == [] <==> g[i] == []
    {
      assert chunks[i] == Join(g[i], ' ');
      JoinOfWords(g[i], ' ');
    }
  }

  /** Empty or all-whitespace input yields no chunks; otherwise the last
      chunk is not empty. */
  lemma NoWordsNoChunks(s: string, chunkSize: nat)
    ensures TruncateWords(s, chunkSize) == [] <==> Words(s) == []
    ensures var chunks := TruncateWords(s, chunkSize);
      chunks != [] ==> chunks[|chunks| - 1] != []
  {
    ChunksAreGroups(s, chunkSize);
    GroupsSpec(Words(s), chunkSize);
    var chunks := TruncateWords(s, chunkSize);
    var g := Groups(Words(s), chunkSize);
    if chunks != [] {
      JoinOfWords(g[|g| - 1], ' ');
    }
  }

  /** Truncating a cell keeps its words: the chunks go on separate lines,
      and a line break is whitespace. */
  lemma TruncateKeepsWords(content: string, maxLength: nat)
    ensures Words(Truncate(content, maxLength)) == Words(content)
  {
    if Len(content) > maxLength {
      WordsOfJoin(TruncateWords(content, maxLength), '\n');
      ChunksKeepWords(content, maxLength);
    }
  }
}
