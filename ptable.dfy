/** calculate/ptable.py, first half: the text operations the table printer is built on
    (str.split, str.join, str.rfind) and the word-wrap functions wrap_always,
    wrap_onspace and wrap_onspace_strict. */
module TextWrap {
  import opened Python

  /** The position of the first c in s, or |s| when there is none (str.find). */
  function Find(s: string, c: char): (k: nat)
    ensures k <= |s| && c !in s[..k] && (k < |s| ==> s[k] == c)
  {
    if s == [] then 0
    else if s[0] == c then 0
    else
      var k := Find(s[1..], c);
      assert s[..k + 1] == [s[0]] + s[1..][..k];
      k + 1
  }

  /** s.split(c): the pieces between the occurrences of c, at least one. */
  function Split(s: string, c: char): (parts: seq<string>)
    ensures |parts| >= 1 && forall i :: 0 <= i < |parts| ==> c !in parts[i]
    decreases |s|
  {
    var k := Find(s, c);
    if k == |s| then
      assert s[..k] == s;
      [s]
    else [s[..k]] + Split(s[k + 1..], c)
  }

  /** delim.join(parts). */
  function Join(delim: string, parts: seq<string>): string {
    if |parts| == 0 then ""
    else if |parts| == 1 then parts[0]
    else Join(delim, parts[..|parts| - 1]) + delim + parts[|parts| - 1]
  }

  lemma {:induction false} JoinCons(delim: string, x: string, rest: seq<string>)
    requires |rest| >= 1
    ensures Join(delim, [x] + rest) == x + delim + Join(delim, rest)
    decreases |rest|
  {
    var parts := [x] + rest;
    if |rest| > 1 {
      var init := rest[..|rest| - 1];
      assert parts[..|parts| - 1] == [x] + init;
      JoinCons(delim, x, init);
    } else {
      assert parts[..1] == [x];
    }
  }

  /** Round trip: joining the pieces of a split with the separator gives back the text. */
  lemma {:induction false} SplitJoin(s: string, c: char)
    ensures Join([c], Split(s, c)) == s
    decreases |s|
  {
    var k := Find(s, c);
    var parts := Split(s, c);
    if k < |s| {
      var pre, post := s[..k], s[k + 1..];
      var rest := Split(post, c);
      assert parts == [pre] + rest;
      SplitJoin(post, c);
      JoinCons([c], pre, rest);
      Rejoin(s, k);
    } else {
      assert parts == [s];
    }
  }

  lemma {:induction false} Rejoin(s: string, k: nat)
    requires k < |s|
    ensures s[..k] + [s[k]] + s[k + 1..] == s
  {
  }

  /** Round trip the other way: pieces without the separator come back from the split
      of their join. */
  lemma {:induction false} JoinSplit(parts: seq<string>, c: char)
    requires |parts| >= 1 && forall i :: 0 <= i < |parts| ==> c !in parts[i]
    ensures Split(Join([c], parts), c) == parts
    decreases |parts|
  {
    if |parts| > 1 {
      var rest := parts[1..];
      assert parts == [parts[0]] + rest;
      JoinCons([c], parts[0], rest);
      var s := Join([c], parts);
      var p := parts[0];
      assert s == p + [c] + Join([c], rest);
      assert s[..|p|] == p && s[|p|] == c;
      assert c !in s[..|p|];
      FindAt(s, c, |p|);
      assert s[|p| + 1..] == Join([c], rest);
      JoinSplit(rest, c);
    } else {
      assert Join([c], parts) == parts[0];
      FindAt(parts[0], c, |parts[0]|);
      assert parts[0][..|parts[0]|] == parts[0];
    }
  }

  lemma {:induction false} FindAt(s: string, c: char, k: nat)
    requires k <= |s| && c !in s[..k] && (k < |s| ==> s[k] == c)
    ensures Find(s, c) == k
  {
    var f := Find(s, c);
    if f < k {
      assert false;
    } else if k < f {
      assert false;
    }
  }

  /** The characters of text concatenated, piece after piece. */
  function Concat(parts: seq<string>): string {
    if parts == [] then "" else Concat(parts[..|parts| - 1]) + parts[|parts| - 1]
  }

  function Min(a: int, b: int): int {
    if a <= b then a else b
  }

  /** int(math.ceil(1.0 * n / width)) for a positive width. */
  function ChunkCount(n: nat, width: int): (count: nat)
    requires width > 0
    ensures width * count >= n && (count > 0 ==> width * (count - 1) < n)
    ensures count == 0 <==> n == 0
  {
    var q := (n + width - 1) / width;
    CeilBounds(n, width, q);
    q
  }

  lemma {:induction false} CeilBounds(n: nat, width: int, q: int)
    requires width > 0 && q == (n + width - 1) / width
    ensures q >= 0 && width * q >= n && (q > 0 ==> width * (q - 1) < n)
    ensures q == 0 <==> n == 0
  {
    var r := (n + width - 1) % width;
    assert n + width - 1 == width * q + r && 0 <= r < width;
    assert width * (q - 1) == width * q - width;
    if n > 0 {
      assert q >= 1 by {
        if q <= 0 {
          assert false;
        }
      }
    }
  }

  /** The slice text[width * i:width * (i + 1)], clipped to the text as Python clips it. */
  function Chunk(text: string, width: int, i: nat): (chunk: string)
    requires width > 0 && i < ChunkCount(|text|, width)
  {
    ChunkStart(|text|, width, i);
    text[width * i..Min(width * (i + 1), |text|)]
  }

  lemma {:induction false} ChunkStart(n: nat, width: int, i: nat)
    requires width > 0 && i < ChunkCount(n, width)
    ensures 0 <= width * i < n && width * (i + 1) == width * i + width
  {
    var count := ChunkCount(n, width);
    assert width * (count - 1) < n;
    assert width * (count - 1) - width * i == width * (count - 1 - i);
    assert width * (count - 1 - i) >= 0;
  }

  /** The list wrap_always joins: the chunks of width characters. */
  function Chunks(text: string, width: int): seq<string>
    requires width > 0
  {
    seq(ChunkCount(|text|, width), i requires 0 <= i < ChunkCount(|text|, width) => Chunk(text, width, i))
  }

  /** wrap_always(text, width): the text cut every width characters, the pieces joined
      by newlines. A zero width divides by zero; a negative one gives no pieces. */
  function WrapAlways(text: string, width: int): (r: Result<string>)
    ensures width == 0 <==> r.Raise?
    ensures r.Raise? ==> r.error == ZeroDivisionError
    ensures width < 0 ==> r == Ok("")
    ensures width > 0 ==> r == Ok(Join("\n", Chunks(text, width)))
  {
    if width == 0 then Raise(ZeroDivisionError)
    else if width < 0 then Ok("")
    else Ok(Join("\n", Chunks(text, width)))
  }

  /** The chunks: as many as ceil(len / width), all of width characters but the last,
      which has between 1 and width; together they are the text. */
  lemma {:induction false} ChunksShape(text: string, width: int)
    requires width > 0
    ensures var chunks := Chunks(text, width);
            |chunks| == ChunkCount(|text|, width) && (text == [] <==> chunks == [])
            && (forall i :: 0 <= i < |chunks| - 1 ==> |chunks[i]| == width)
            && (|chunks| > 0 ==> 1 <= |chunks[|chunks| - 1]| <= width)
            && Concat(chunks) == text
  {
    ChunkLengths(text, width);
    var chunks := Chunks(text, width);
    ConcatChunks(text, width, |chunks|);
    assert chunks[..|chunks|] == chunks;
    assert text[..|text|] == text;
  }

  lemma {:induction false} ChunkLengths(text: string, width: int)
    requires width > 0
    ensures var chunks := Chunks(text, width);
            (forall i :: 0 <= i < |chunks| - 1 ==> |chunks[i]| == width)
            && (|chunks| > 0 ==> 1 <= |chunks[|chunks| - 1]| <= width)
  {
    var chunks := Chunks(text, width);
    var count := |chunks|;
    forall i | 0 <= i < count - 1 ensures |chunks[i]| == width {
      ChunkStart(|text|, width, i);
      ChunkStart(|text|, width, i + 1);
    }
    if count > 0 {
      ChunkStart(|text|, width, count - 1);
    }
  }

  /** The first i chunks spell out the text up to character width * i. */
  lemma {:induction false} ConcatChunks(text: string, width: int, i: nat)
    requires width > 0 && i <= ChunkCount(|text|, width)
    ensures Concat(Chunks(text, width)[..i]) == text[..Min(width * i, |text|)]
  {
    var chunks := Chunks(text, width);
    if i > 0 {
      ConcatChunks(text, width, i - 1);
      ChunkStart(|text|, width, i - 1);
      assert chunks[..i][..i - 1] == chunks[..i - 1];
      assert width * (i - 1) + width == width * i;
      assert text[..Min(width * i, |text|)] == text[..width * (i - 1)] + chunks[i - 1];
    }
  }

  /** Removing the newlines wrap_always puts in gives the text back: a text without
      newlines splits at them into exactly its chunks. */
  lemma {:induction false} WrapAlwaysSplits(text: string, width: int)
    requires width > 0 && text != [] && '\n' !in text
    ensures Split(WrapAlways(text, width).value, '\n') == Chunks(text, width)
  {
    var chunks := Chunks(text, width);
    ChunksShape(text, width);
    forall i | 0 <= i < |chunks| ensures '\n' !in chunks[i] {
      ChunkStart(|text|, width, i);
      ChunkInText(text, width, i);
    }
    JoinSplit(chunks, '\n');
  }

  lemma {:induction false} ChunkInText(text: string, width: int, i: nat)
    requires width > 0 && i < ChunkCount(|text|, width)
    ensures forall c :: c in Chunk(text, width, i) ==> c in text
  {
    ChunkStart(|text|, width, i);
    var a, b := width * i, Min(width * (i + 1), |text|);
    forall c | c in text[a..b] ensures c in text {
      var k :| 0 <= k < b - a && text[a..b][k] == c;
      assert text[a + k] == c;
    }
  }

  /** The position of the last c in s, or -1 (str.rfind). */
  function RFind(s: string, c: char): (k: int)
    ensures -1 <= k < |s| && (k >= 0 ==> s[k] == c)
    ensures forall x :: k < x < |s| ==> s[x] != c
  {
    if s == [] then -1
    else if s[|s| - 1] == c then |s| - 1
    else RFind(s[..|s| - 1], c)
  }

  /** line[line.rfind('\n') + 1:]: the line being filled. */
  function LastLine(line: string): string {
    line[RFind(line, '\n') + 1..]
  }

  /** word.split('\n', 1)[0]: the part of word before its first newline. */
  function FirstLine(word: string): string {
    word[..Find(word, '\n')]
  }

  /** ' \n'[len(last line) + len(first line of word) >= width]. */
  function Joint(line: string, word: string, width: int): char {
    if |LastLine(line)| + |FirstLine(word)| >= width then '\n' else ' '
  }

  /** reduce(lambda line, word: line + joint + word, words). */
  function Wrapped(words: seq<string>, width: int): string
    requires |words| >= 1
  {
    if |words| == 1 then words[0]
    else
      var line := Wrapped(words[..|words| - 1], width);
      var word := words[|words| - 1];
      line + [Joint(line, word, width)] + word
  }

  /** wrap_onspace(text, width): the words of text.split(' ') folded back together, each
      space kept or turned into a newline. */
  function WrapOnSpace(text: string, width: int): string {
    Wrapped(Split(text, ' '), width)
  }

  /** The fold has the shape of the join: the same length, every character kept except
      the joints, each a space or a newline. */
  lemma {:induction false} WrappedShape(words: seq<string>, width: int)
    requires |words| >= 1
    ensures var w, j := Wrapped(words, width), Join(" ", words);
            |w| == |j| && forall i :: 0 <= i < |j| ==> (j[i] != ' ' ==> w[i] == j[i]) && (j[i] == ' ' ==> w[i] == ' ' || w[i] == '\n')
  {
    if |words| > 1 {
      var init := words[..|words| - 1];
      WrappedShape(init, width);
      var line := Wrapped(init, width);
      var word := words[|words| - 1];
      var joined := Join(" ", init);
      var w, j := Wrapped(words, width), Join(" ", words);
      assert w == line + [Joint(line, word, width)] + word;
      assert j == joined + " " + word;
      forall i | 0 <= i < |j| ensures (j[i] != ' ' ==> w[i] == j[i]) && (j[i] == ' ' ==> w[i] == ' ' || w[i] == '\n') {
        if i < |line| {
          assert w[i] == line[i] && j[i] == joined[i];
        } else if i > |line| {
          assert w[i] == word[i - |line| - 1] && j[i] == word[i - |line| - 1];
        }
      }
    }
  }

  /** wrap_onspace keeps the length of its text, keeps every character other than a
      space, and turns a space, if at all, into a newline. */
  lemma {:induction false} WrapOnSpaceShape(text: string, width: int)
    ensures var out := WrapOnSpace(text, width);
            |out| == |text|
            && forall i :: 0 <= i < |text| ==>
                 (text[i] != ' ' ==> out[i] == text[i]) && (text[i] == ' ' ==> out[i] == ' ' || out[i] == '\n')
  {
    SplitJoin(text, ' ');
    WrappedShape(Split(text, ' '), width);
  }

  /** A line of s: no newline between i and j. */
  predicate NoNewline(s: string, i: int, j: int)
    requires 0 <= i <= j <= |s|
  {
    forall x :: i <= x < j ==> s[x] != '\n'
  }

  /** Every stretch of s without a newline that holds a space is at most width long. */
  predicate SpacedLinesFit(s: string, width: int) {
    forall i, m, j :: 0 <= i <= m < j <= |s| && s[m] == ' ' && NoNewline(s, i, j) ==> j - i <= width
  }

  lemma {:induction false} LastLineMax(line: string, i: int)
    requires 0 <= i <= |line| && NoNewline(line, i, |line|)
    ensures |line| - i <= |LastLine(line)|
  {
  }

  lemma {:induction false} FirstLineMax(word: string, m: int)
    requires 0 <= m <= |word| && NoNewline(word, 0, m)
    ensures m <= |FirstLine(word)|
  {
    var k := Find(word, '\n');
    if k < m {
      assert false;
    }
  }

  /** A space the fold keeps joins two line pieces that together stay under width, so
      every line with a space in it fits. */
  lemma {:induction false} WrappedFits(words: seq<string>, width: int)
    requires |words| >= 1 && forall k :: 0 <= k < |words| ==> ' ' !in words[k]
    ensures SpacedLinesFit(Wrapped(words, width), width)
  {
    if |words| > 1 {
      var init := words[..|words| - 1];
      WrappedFits(init, width);
      var line := Wrapped(init, width);
      var word := words[|words| - 1];
      var s := Wrapped(words, width);
      var n := |line|;
      assert s == line + [Joint(line, word, width)] + word;
      forall i, m, j | 0 <= i <= m < j <= |s| && s[m] == ' ' && NoNewline(s, i, j) ensures j - i <= width {
        if j <= n {
          assert NoNewline(line, i, j) by {
            forall x | i <= x < j ensures line[x] != '\n' {
              assert s[x] == line[x];
            }
          }
          assert line[m] == ' ';
        } else if i > n {
          assert false;
        } else {
          JointFits(line, word, width, s, i, j);
        }
      }
    }
  }

  lemma {:induction false} JointFits(line: string, word: string, width: int, s: string, i: int, j: int)
    requires s == line + [Joint(line, word, width)] + word
    requires 0 <= i <= |line| < j <= |s| && NoNewline(s, i, j)
    ensures j - i <= width
  {
    var n := |line|;
    assert s[n] != '\n';
    assert NoNewline(line, i, n) by {
      forall x | i <= x < n ensures line[x] != '\n' {
        assert s[x] == line[x];
      }
    }
    assert NoNewline(word, 0, j - n - 1) by {
      forall x | 0 <= x < j - n - 1 ensures word[x] != '\n' {
        assert s[n + 1 + x] == word[x];
      }
    }
    LastLineMax(line, i);
    FirstLineMax(word, j - n - 1);
  }

  /** The word-wrap promise of wrap_onspace: no line holding a space is longer than
      width. */
  lemma {:induction false} WrapOnSpaceFits(text: string, width: int)
    ensures SpacedLinesFit(WrapOnSpace(text, width), width)
  {
    WrappedFits(Split(text, ' '), width);
  }

  /** The rule at each space: with the text before it already wrapped, the k-th space
      becomes a newline exactly when the last line so far and the first line of the
      next word together reach width. */
  lemma {:induction false} WrapOnSpaceRule(text: string, width: int, k: int)
    requires 1 <= k < |Split(text, ' ')|
    ensures var words, out := Split(text, ' '), WrapOnSpace(text, width);
            var p := |Join(" ", words[..k])|;
            p < |text| && text[p] == ' ' && p < |out| && out[..p] == Wrapped(words[..k], width)
            && (out[p] == '\n' <==> |LastLine(out[..p])| + |FirstLine(words[k])| >= width)
  {
    var words := Split(text, ' ');
    WrappedShape(words[..k], width);
    SpaceAt(words, k);
    SplitJoin(text, ' ');
    JointAt(words, width, k);
  }

  /** In the join of the words, the k-th space follows the join of the first k. */
  lemma {:induction false} SpaceAt(words: seq<string>, k: int)
    requires 1 <= k < |words|
    ensures var p := |Join(" ", words[..k])|; p < |Join(" ", words)| && Join(" ", words)[p] == ' '
  {
    var next := words[..k + 1];
    assert next[..k] == words[..k];
    assert Join(" ", next) == Join(" ", words[..k]) + " " + words[k];
    JoinPrefix(words, k + 1);
  }

  /** In the fold of the words, the fold of the first k is followed by their joint. */
  lemma {:induction false} JointAt(words: seq<string>, width: int, k: int)
    requires 1 <= k < |words|
    ensures var line, out := Wrapped(words[..k], width), Wrapped(words, width);
            |line| < |out| && out[..|line|] == line && out[|line|] == Joint(line, words[k], width)
  {
    var line := Wrapped(words[..k], width);
    var next := words[..k + 1];
    assert next[..k] == words[..k];
    var w := Wrapped(next, width);
    assert w == line + [Joint(line, words[k], width)] + words[k];
    WrappedPrefix(words, width, k + 1);
    var out := Wrapped(words, width);
    assert out[..|w|] == w;
    assert out[|line|] == w[|line|];
    assert out[..|line|] == w[..|line|];
  }

  /** The fold of the first m words begins the fold of all of them. */
  lemma {:induction false} WrappedPrefix(words: seq<string>, width: int, m: int)
    requires 1 <= m <= |words|
    ensures var w := Wrapped(words[..m], width); |w| <= |Wrapped(words, width)| && Wrapped(words, width)[..|w|] == w
    decreases |words|
  {
    if m < |words| {
      var init := words[..|words| - 1];
      assert init[..m] == words[..m];
      WrappedPrefix(init, width, m);
    } else {
      assert words[..m] == words;
    }
  }

  lemma {:induction false} JoinPrefix(words: seq<string>, m: int)
    requires 1 <= m <= |words|
    ensures var j := Join(" ", words[..m]); |j| <= |Join(" ", words)| && Join(" ", words)[..|j|] == j
    decreases |words|
  {
    if m < |words| {
      var init := words[..|words| - 1];
      assert init[..m] == words[..m];
      JoinPrefix(init, m);
    } else {
      assert words[..m] == words;
    }
  }

  /** The characters the pattern \S does not match: ASCII whitespace. */
  predicate IsSpace(c: char) {
    c == ' ' || c == '\t' || c == '\n' || c == '\r' || c as int == 11 || c as int == 12
  }

  /** The length of the run of non-whitespace characters s starts with. */
  function RunLength(s: string): (k: nat)
    ensures k <= |s| && (forall x :: 0 <= x < k ==> !IsSpace(s[x])) && (k < |s| ==> IsSpace(s[k]))
  {
    if s == [] || IsSpace(s[0]) then 0 else 1 + RunLength(s[1..])
  }

  /** What the substitution puts in place of a run: wrap_always of it when the pattern
      \S{width,} matches it, the run itself when it is shorter. */
  function Piece(run: string, width: int): string
    requires width >= 1
  {
    if |run| >= width then WrapAlways(run, width).value else run
  }

  /** wordRegex.sub(wrap_always, text): every maximal run of at least width
      non-whitespace characters cut by wrap_always; the greedy match takes the whole
      run, and a shorter run has no match anywhere in it. */
  function Substituted(text: string, width: int): string
    requires width >= 1
    decreases |text|
  {
    if text == [] then ""
    else if IsSpace(text[0]) then [text[0]] + Substituted(text[1..], width)
    else
      var k := RunLength(text);
      Piece(text[..k], width) + Substituted(text[k..], width)
  }

  /** What r'\S{' + str(width) + r',}' reads as for a negative width: "{-3,}" is no
      repetition count, so the regular expression parser takes the brace and all that
      follows it as literal characters, and the pattern is one non-whitespace character
      followed by this text. */
  function BraceLiteral(width: int): (lit: string)
    ensures |lit| >= 4 && lit[0] == '{'
  {
    "{" + IntString(width) + ",}"
  }

  /** wordRegex.sub(wrap_always, text) for that pattern: scanning from the left, each
      non-whitespace character followed by lit is replaced by wrap_always of the match,
      which a negative width makes empty, and the scan goes on after the match. */
  function Erased(text: string, lit: string, width: int): (r: string)
    requires width < 0
    decreases |text|
  {
    if |text| > |lit| && !IsSpace(text[0]) && text[1..|lit| + 1] == lit then
      WrapAlways(text[..|lit| + 1], width).value + Erased(text[|lit| + 1..], lit, width)
    else if text == [] then ""
    else [text[0]] + Erased(text[1..], lit, width)
  }

  /** A text without the brace the literal starts with has no match and comes through
      the substitution unchanged. */
  lemma {:induction false} ErasedUntouched(text: string, lit: string, width: int)
    requires width < 0 && |lit| >= 1 && lit[0] !in text
    ensures Erased(text, lit, width) == text
    decreases |text|
  {
    if text != [] {
      assert text[1..] != [] ==> text[1] == text[1..][0];
      assert |text| > |lit| ==> text[1..|lit| + 1][0] == text[1] != lit[0];
      ErasedUntouched(text[1..], lit, width);
    }
  }

  /** A match is erased: a non-whitespace character followed by lit at the start of the
      text goes, and what follows is substituted in turn. */
  lemma {:induction false} ErasedMatch(c: char, lit: string, rest: string, width: int)
    requires width < 0 && !IsSpace(c)
    ensures Erased([c] + lit + rest, lit, width) == Erased(rest, lit, width)
  {
    var text := [c] + lit + rest;
    assert text[1..|lit| + 1] == lit && text[|lit| + 1..] == rest;
  }

  /** wrap_onspace_strict(text, width). With width 0 the pattern \S{0,} matches the
      empty string and wrap_always('', 0) divides by zero; a negative width gives the
      literal pattern of BraceLiteral. */
  function WrapOnSpaceStrict(text: string, width: int): (r: Result<string>)
    ensures r.Raise? <==> width == 0
    ensures r.Raise? ==> r.error == ZeroDivisionError
    ensures r.Ok? && width > 0 ==> r.value == WrapOnSpace(Substituted(text, width), width)
    ensures r.Ok? && width < 0 ==> r.value == WrapOnSpace(Erased(text, BraceLiteral(width), width), width)
  {
    if width == 0 then Raise(ZeroDivisionError)
    else if width < 0 then Ok(WrapOnSpace(Erased(text, BraceLiteral(width), width), width))
    else Ok(WrapOnSpace(Substituted(text, width), width))
  }

  /** A fold with a width of at most 0 breaks at every joint: each joint's line lengths
      reach the width. */
  lemma {:induction false} WrappedNegative(words: seq<string>, width: int)
    requires |words| >= 1 && width <= 0
    ensures Wrapped(words, width) == Join("\n", words)
  {
    if |words| > 1 {
      WrappedNegative(words[..|words| - 1], width);
    }
  }

  lemma {:induction false} JoinAvoids(delim: string, parts: seq<string>, c: char)
    requires c !in delim && forall i :: 0 <= i < |parts| ==> c !in parts[i]
    ensures c !in Join(delim, parts)
  {
    if |parts| > 1 {
      JoinAvoids(delim, parts[..|parts| - 1], c);
    }
  }

  /** wrap_onspace with a width of at most 0 turns every space into a newline and keeps
      every other character. */
  lemma {:induction false} WrapOnSpaceNegative(text: string, width: int)
    requires width <= 0
    ensures var out := WrapOnSpace(text, width);
            |out| == |text| && forall i :: 0 <= i < |text| ==> out[i] == if text[i] == ' ' then '\n' else text[i]
  {
    var words := Split(text, ' ');
    WrappedNegative(words, width);
    JoinAvoids("\n", words, ' ');
    WrapOnSpaceShape(text, width);
    var out := WrapOnSpace(text, width);
    forall i | 0 <= i < |text| && text[i] == ' ' ensures out[i] == '\n' {
      assert out[i] in out;
    }
  }

  /** wrap_onspace_strict with a negative width: the literal matches erased, then every
      space a newline; a text without a brace keeps everything but its spaces. */
  lemma {:induction false} StrictNegative(text: string, width: int)
    requires width < 0
    ensures var r := WrapOnSpaceStrict(text, width);
            var e := Erased(text, BraceLiteral(width), width);
            r.Ok? && |r.value| == |e|
            && forall i :: 0 <= i < |e| ==> r.value[i] == if e[i] == ' ' then '\n' else e[i]
    ensures '{' !in text ==>
              var out := WrapOnSpaceStrict(text, width).value;
              |out| == |text| && forall i :: 0 <= i < |text| ==> out[i] == if text[i] == ' ' then '\n' else text[i]
  {
    var e := Erased(text, BraceLiteral(width), width);
    WrapOnSpaceNegative(e, width);
    if '{' !in text {
      ErasedUntouched(text, BraceLiteral(width), width);
    }
  }

  /** No whitespace between i and j. */
  predicate NonSpace(s: string, i: int, j: int)
    requires 0 <= i <= j <= |s|
  {
    forall x :: i <= x < j ==> !IsSpace(s[x])
  }

  /** A character inside a stretch without whitespace is not whitespace. */
  lemma {:induction false} NonSpaceAt(s: string, i: int, j: int, x: int)
    ensures 0 <= i <= x < j <= |s| && NonSpace(s, i, j) ==> !IsSpace(s[x])
  {
  }

  /** Every stretch of s without whitespace is at most width long. */
  predicate RunsFit(s: string, width: int) {
    forall i, j :: 0 <= i <= j <= |s| && NonSpace(s, i, j) ==> j - i <= width
  }

  /** Pieces of at most width characters joined by newlines leave no longer run. */
  lemma {:induction false} JoinFits(parts: seq<string>, width: int)
    requires width >= 1 && forall x :: 0 <= x < |parts| ==> |parts[x]| <= width
    ensures RunsFit(Join("\n", parts), width)
  {
    var s := Join("\n", parts);
    if |parts| == 1 {
      assert s == parts[0];
    } else if |parts| > 1 {
      var init := parts[..|parts| - 1];
      var last := parts[|parts| - 1];
      var head := Join("\n", init);
      JoinFits(init, width);
      assert s == head + "\n" + last;
      var n := |head|;
      forall i, j | 0 <= i <= j <= |s| && NonSpace(s, i, j) ensures j - i <= width {
        if j <= n {
          assert NonSpace(head, i, j) by {
            forall x | i <= x < j ensures !IsSpace(head[x]) {
              assert s[x] == head[x];
            }
          }
        } else if i <= n {
          NonSpaceAt(s, i, j, n);
          assert false;
        }
      }
    }
  }

  /** What replaces a run leaves no run longer than width. */
  lemma {:induction false} PieceFits(run: string, width: int)
    requires width >= 1
    ensures RunsFit(Piece(run, width), width)
  {
    if |run| >= width {
      ChunkLengths(run, width);
      var chunks := Chunks(run, width);
      JoinFits(chunks, width);
    }
  }

  /** The promise of wrap_onspace_strict's first step: after the substitution no run of
      non-whitespace characters is longer than width. */
  lemma {:induction false} SubstitutedFits(text: string, width: int)
    requires width >= 1
    ensures RunsFit(Substituted(text, width), width)
    decreases |text|
  {
    var s := Substituted(text, width);
    if text != [] {
      if IsSpace(text[0]) {
        var rest := Substituted(text[1..], width);
        SubstitutedFits(text[1..], width);
        assert s == [text[0]] + rest;
        forall i, j | 0 <= i <= j <= |s| && NonSpace(s, i, j) ensures j - i <= width {
          if i == 0 && j > 0 {
            NonSpaceAt(s, i, j, 0);
            assert false;
          } else if i > 0 {
            assert NonSpace(rest, i - 1, j - 1) by {
              forall x | i - 1 <= x < j - 1 ensures !IsSpace(rest[x]) {
                assert s[x + 1] == rest[x];
              }
            }
          }
        }
      } else {
        var k := RunLength(text);
        var piece := Piece(text[..k], width);
        var rest := Substituted(text[k..], width);
        PieceFits(text[..k], width);
        SubstitutedFits(text[k..], width);
        assert s == piece + rest;
        assert rest != [] ==> IsSpace(rest[0]);
        ConcatFits(piece, rest, width);
      }
    }
  }

  /** Two strings whose runs fit, the second starting with whitespace if anything. */
  lemma {:induction false} ConcatFits(a: string, b: string, width: int)
    requires width >= 1 && RunsFit(a, width) && RunsFit(b, width) && (b != [] ==> IsSpace(b[0]))
    ensures RunsFit(a + b, width)
  {
    var s := a + b;
    var n := |a|;
    forall i, j | 0 <= i <= j <= |s| && NonSpace(s, i, j) ensures j - i <= width {
      if j <= n {
        assert NonSpace(a, i, j) by {
          forall x | i <= x < j ensures !IsSpace(a[x]) {
            assert s[x] == a[x];
          }
        }
      } else if i >= n {
        assert NonSpace(b, i - n, j - n) by {
          forall x | i - n <= x < j - n ensures !IsSpace(b[x]) {
            assert s[x + n] == b[x];
          }
        }
      } else {
        NonSpaceAt(s, i, j, n);
        assert false;
      }
    }
  }

  /** The width constraint wrap_onspace_strict enforces: in its output no run of
      non-whitespace characters is longer than width, and no line holding a space is. */
  lemma {:induction false} StrictFits(text: string, width: int)
    requires width >= 1
    ensures RunsFit(WrapOnSpaceStrict(text, width).value, width)
    ensures SpacedLinesFit(WrapOnSpaceStrict(text, width).value, width)
  {
    var sub := Substituted(text, width);
    var out := WrapOnSpace(sub, width);
    SubstitutedFits(text, width);
    WrapOnSpaceShape(sub, width);
    WrapOnSpaceFits(sub, width);
    forall i, j | 0 <= i <= j <= |out| && NonSpace(out, i, j) ensures j - i <= width {
      assert NonSpace(sub, i, j) by {
        forall x | i <= x < j ensures !IsSpace(sub[x]) {
          assert !IsSpace(out[x]);
        }
      }
    }
  }
}

/** calculate/ptable.py, second half: indent, which lays a table out in columns. */
module PTable {
  import opened Python
  import opened TextWrap

  /** The three justify methods: str.center, str.rjust, str.ljust. */
  datatype Justify = Center | RJust | LJust

  /** ASCII lower-casing, as str.lower() does on these names. */
  function LowerChar(c: char): char {
    if 'A' <= c <= 'Z' then (c as int + 32) as char else c
  }

  function Lower(s: string): (r: string)
    ensures |r| == |s| && forall i :: 0 <= i < |s| ==> r[i] == LowerChar(s[i])
  {
    seq(|s|, i requires 0 <= i < |s| => LowerChar(s[i]))
  }

  /** The dictionary lookup {'center': ..., 'right': ..., 'left': ...}[justify.lower()]. */
  function JustifyOf(name: string): (r: Result<Justify>)
    ensures r.Raise? <==> Lower(name) != "center" && Lower(name) != "right" && Lower(name) != "left"
    ensures r.Raise? ==> r.error == KeyError
    ensures r.Ok? ==> r.value == (if Lower(name) == "center" then Center else if Lower(name) == "right" then RJust else LJust)
  {
    var key := Lower(name);
    if key == "center" then Ok(Center)
    else if key == "right" then Ok(RJust)
    else if key == "left" then Ok(LJust)
    else Raise(KeyError)
  }

  function Spaces(n: int): (r: string)
    ensures |r| == (if n <= 0 then 0 else n) && forall i :: 0 <= i < |r| ==> r[i] == ' '
  {
    if n <= 0 then "" else seq(n, i => ' ')
  }

  /** Where a justify method puts s in a field of width characters. For center this is
      CPython's margin split: half the margin, plus one when both the margin and the
      width are odd. */
  function Offset(j: Justify, s: string, width: int): (off: nat)
    ensures width > |s| ==> off <= width - |s|
    ensures width <= |s| ==> off == 0
  {
    var margin := width - |s|;
    if margin <= 0 then 0
    else
      match j
      case LJust => 0
      case RJust => margin
      case Center => margin / 2 + (if margin % 2 == 1 && width % 2 == 1 then 1 else 0)
  }

  /** justify(s, width): s padded with spaces to width characters, never cut. */
  function Pad(j: Justify, s: string, width: int): (r: string)
    ensures |r| == (if width > |s| then width else |s|)
    ensures var off := Offset(j, s, width);
            r[off..off + |s|] == s && forall x :: 0 <= x < |r| && (x < off || x >= off + |s|) ==> r[x] == ' '
  {
    var off := Offset(j, s, width);
    var r := Spaces(off) + s + Spaces(width - |s| - off);
    assert r[off..off + |s|] == s;
    r
  }

  /** The two margins str.center leaves differ by at most one character, the larger on
      the right unless both the margin and the width are odd. */
  lemma {:induction false} CenterBalanced(s: string, width: int)
    requires width > |s|
    ensures var left := Offset(Center, s, width);
            var right := width - |s| - left;
            -1 <= right - left <= 1
            && (right < left <==> (width - |s|) % 2 == 1 && width % 2 == 1)
  {
  }

  /** One physical line of the output: the cells justified to their columns' widths,
      joined by delim, between prefix and postfix; zip stops at the shorter of the row
      and the widths. */
  datatype Layout = Layout(widths: seq<int>, separator: string, justify: Justify,
                           prefix: string, delim: string, postfix: string)

  function Line(layout: Layout, row: seq<string>): string {
    var n := Min(|row|, |layout.widths|);
    layout.prefix
    + Join(layout.delim, seq(n, j requires 0 <= j < n => Pad(layout.justify, row[j], layout.widths[j])))
    + layout.postfix
  }

  /** rowWrapper(row): each item wrapped and split into its lines; Python 2's map pads the
      shorter items with None, which `substr or ''` turns into empty strings. */
  function PhysicalRows(row: seq<string>, wrapfunc: string -> string): (rows: seq<seq<string>>)
    ensures forall i :: 0 <= i < |rows| ==> |rows[i]| == |row|
  {
    var parts := seq(|row|, j requires 0 <= j < |row| => Split(wrapfunc(row[j]), '\n'));
    var height := Tallest(parts);
    seq(height, i requires 0 <= i < height =>
      seq(|row|, j requires 0 <= j < |row| => if i < |parts[j]| then parts[j][i] else ""))
  }

  /** The length of the longest of the lists, 0 for none. */
  function Tallest(parts: seq<seq<string>>): (n: nat)
    ensures forall j :: 0 <= j < |parts| ==> |parts[j]| <= n
    ensures |parts| > 0 ==> exists j :: 0 <= j < |parts| && |parts[j]| == n
  {
    if parts == [] then 0
    else
      var n := Tallest(parts[..|parts| - 1]);
      var last := |parts[|parts| - 1]|;
      assert forall j :: 0 <= j < |parts| - 1 ==> parts[..|parts| - 1][j] == parts[j];
      if last > n then last else n
  }

  /** reduce(operator.add, logicalRows): the physical rows one after the other. */
  function Flatten(logical: seq<seq<seq<string>>>): seq<seq<string>> {
    if logical == [] then [] else logical[0] + Flatten(logical[1..])
  }

  /** map(lambda *a: a, *rows) pads a short row with None, whose str is "None". */
  function Cell(row: seq<string>, j: int): string {
    if 0 <= j < |row| then row[j] else "None"
  }

  /** The number of columns: the length of the longest physical row. */
  function ColumnCount(rows: seq<seq<string>>): (n: nat)
    ensures forall i :: 0 <= i < |rows| ==> |rows[i]| <= n
  {
    if rows == [] then 0
    else
      var n := ColumnCount(rows[..|rows| - 1]);
      assert forall i :: 0 <= i < |rows| - 1 ==> rows[..|rows| - 1][i] == rows[i];
      if |rows[|rows| - 1]| > n then |rows[|rows| - 1]| else n
  }

  /** max([len(str(item)) for item in column]) for column j. */
  function ColumnWidth(rows: seq<seq<string>>, j: int): nat
    requires |rows| >= 1
  {
    if |rows| == 1 then |Cell(rows[0], j)|
    else
      var w := ColumnWidth(rows[..|rows| - 1], j);
      var last := |Cell(rows[|rows| - 1], j)|;
      if last > w then last else w
  }

  /** maxWidths. */
  function MaxWidths(rows: seq<seq<string>>): (widths: seq<int>)
    requires |rows| >= 1
    ensures |widths| == ColumnCount(rows)
  {
    seq(ColumnCount(rows), j requires 0 <= j < ColumnCount(rows) => ColumnWidth(rows, j))
  }

  /** Each column is as wide as its widest cell: no cell is wider, and one is as wide. */
  lemma {:induction false} ColumnWidthMax(rows: seq<seq<string>>, j: int) returns (w: nat)
    requires |rows| >= 1
    ensures 0 <= w < |rows| && |Cell(rows[w], j)| == ColumnWidth(rows, j)
    ensures forall i :: 0 <= i < |rows| ==> |Cell(rows[i], j)| <= ColumnWidth(rows, j)
  {
    if |rows| == 1 {
      w := 0;
    } else {
      var init := rows[..|rows| - 1];
      w := ColumnWidthMax(init, j);
      assert forall i :: 0 <= i < |rows| - 1 ==> init[i] == rows[i];
      if |Cell(rows[|rows| - 1], j)| > ColumnWidth(init, j) {
        w := |rows| - 1;
      }
    }
  }

  function SumOf(ws: seq<int>): int {
    if ws == [] then 0 else SumOf(ws[..|ws| - 1]) + ws[|ws| - 1]
  }

  /** headerChar * n: n copies of s, none for n <= 0. */
  function Repeat(s: string, n: int): (r: string)
    ensures n >= 0 ==> |r| == n * |s|
    ensures |s| == 1 ==> forall i :: 0 <= i < |r| ==> r[i] == s[0]
  {
    if n <= 0 then "" else Repeat(s, n - 1) + s
  }

  /** rowSeparator's length. */
  function SeparatorLength(widths: seq<int>, prefix: string, delim: string, postfix: string): int {
    |prefix| + |postfix| + SumOf(widths) + |delim| * (|widths| - 1)
  }

  /** The lines of some physical rows, each followed by a newline. */
  function Block(layout: Layout, rows: seq<seq<string>>): string {
    if rows == [] then "" else Block(layout, rows[..|rows| - 1]) + Printout(layout, rows[|rows| - 1])
  }

  /** print(line, file=output): the line and a newline. */
  function Printout(layout: Layout, row: seq<string>): string {
    Line(layout, row) + "\n"
  }

  /** The printing loop over the logical rows from the one at hand: each one's lines,
      then the separator while the header flag is up, which then goes down. */
  function Printed(layout: Layout, logical: seq<seq<seq<string>>>, header: bool): string {
    if logical == [] then ""
    else
      Block(layout, logical[0]) + (if header then layout.separator + "\n" else "")
      + Printed(layout, logical[1..], false)
  }

  /** logicalRows: each row broken into its physical rows. */
  function Logical(rows: seq<seq<string>>, wrapfunc: string -> string): (logical: seq<seq<seq<string>>>)
    ensures |logical| == |rows|
    ensures forall i :: 0 <= i < |rows| ==> logical[i] == PhysicalRows(rows[i], wrapfunc)
  {
    seq(|rows|, i requires 0 <= i < |rows| => PhysicalRows(rows[i], wrapfunc))
  }

  /** The widths, the separator line and the cell layout indent computes before printing. */
  function LayoutOf(physical: seq<seq<string>>, headerChar: string, delim: string, just: Justify,
                    prefix: string, postfix: string): Layout
    requires |physical| >= 1
  {
    var widths := MaxWidths(physical);
    Layout(widths, Repeat(headerChar, SeparatorLength(widths, prefix, delim, postfix)), just, prefix, delim, postfix)
  }

  /** indent(rows, ...). A table without rows fails in reduce() and an empty row in
      map() of no lists, both with TypeError; an unknown justify is a KeyError; and
      separateRows reaches `print >> output`, a TypeError under print_function. */
  function Indented(rows: seq<seq<string>>, hasHeader: bool, headerChar: string, delim: string,
                    justify: string, separateRows: bool, prefix: string, postfix: string,
                    wrapfunc: string -> string): (r: Result<string>)
    ensures rows == [] || [] in rows ==> r == Raise(TypeError)
    ensures rows != [] && [] !in rows && JustifyOf(justify).Raise? ==> r == Raise(KeyError)
    ensures rows != [] && [] !in rows && JustifyOf(justify).Ok? && separateRows ==> r == Raise(TypeError)
    ensures r.Ok? <==> rows != [] && [] !in rows && JustifyOf(justify).Ok? && !separateRows
  {
    if rows == [] || [] in rows then Raise(TypeError)
    else
      var logical := Logical(rows, wrapfunc);
      LogicalNonEmpty(rows, wrapfunc);
      var just :- JustifyOf(justify);
      if separateRows then Raise(TypeError)
      else Ok(Printed(LayoutOf(Flatten(logical), headerChar, delim, just, prefix, postfix), logical, hasHeader))
  }

  lemma {:induction false} IndentedOk(rows: seq<seq<string>>, hasHeader: bool, headerChar: string, delim: string,
                                      justify: string, prefix: string, postfix: string, wrapfunc: string -> string)
    requires rows != [] && [] !in rows && JustifyOf(justify).Ok?
    ensures |Flatten(Logical(rows, wrapfunc))| >= 1
    ensures Indented(rows, hasHeader, headerChar, delim, justify, false, prefix, postfix, wrapfunc)
            == Ok(Printed(LayoutOf(Flatten(Logical(rows, wrapfunc)), headerChar, delim, JustifyOf(justify).value, prefix, postfix),
                          Logical(rows, wrapfunc), hasHeader))
  {
    LogicalNonEmpty(rows, wrapfunc);
  }

  /** A row with an item yields at least one physical row. */
  lemma {:induction false} LogicalNonEmpty(rows: seq<seq<string>>, wrapfunc: string -> string)
    requires rows != [] && [] !in rows
    ensures |Flatten(Logical(rows, wrapfunc))| >= 1
  {
    var row := rows[0];
    assert row in rows;
    var parts := seq(|row|, j requires 0 <= j < |row| => Split(wrapfunc(row[j]), '\n'));
    assert |parts[0]| >= 1;
    assert |Logical(rows, wrapfunc)[0]| >= 1;
  }

  /** The inner loop of indent: one line per physical row of a logical row. */
  method WriteRows(layout: Layout, physicalRows: seq<seq<string>>) returns (output: string)
    ensures output == Block(layout, physicalRows)
  {
    output := "";
    for k := 0 to |physicalRows|
      invariant output == Block(layout, physicalRows[..k])
    {
      assert physicalRows[..k + 1][..k] == physicalRows[..k];
      output := output + Printout(layout, physicalRows[k]);
    }
    assert physicalRows[..|physicalRows|] == physicalRows;
  }

  lemma {:induction false} Associate(a: string, b: string, c: string, d: string)
    ensures a + (b + c + d) == a + b + c + d
  {
  }

  lemma {:induction false} PrintedStep(layout: Layout, logical: seq<seq<seq<string>>>, header: bool)
    requires logical != []
    ensures Printed(layout, logical, header)
            == Block(layout, logical[0]) + (if header then layout.separator + "\n" else "") + Printed(layout, logical[1..], false)
  {
  }

  /** indent: with the rows broken up, the widths and the separator computed and the
      justify method looked up, the rows are printed. */
  method Indent(rows: seq<seq<string>>, hasHeader: bool, headerChar: string, delim: string,
                justify: string, separateRows: bool, prefix: string, postfix: string,
                wrapfunc: string -> string) returns (r: Result<string>)
    ensures r == Indented(rows, hasHeader, headerChar, delim, justify, separateRows, prefix, postfix, wrapfunc)
  {
    if rows == [] || [] in rows {
      return Raise(TypeError);
    }
    var logicalRows := Logical(rows, wrapfunc);
    LogicalNonEmpty(rows, wrapfunc);
    var just := JustifyOf(justify);
    if just.Raise? {
      return Raise(KeyError);
    }
    if separateRows {
      return Raise(TypeError);
    }
    var layout := LayoutOf(Flatten(logicalRows), headerChar, delim, just.value, prefix, postfix);
    var output := PrintRows(layout, logicalRows, hasHeader);
    IndentedOk(rows, hasHeader, headerChar, delim, justify, prefix, postfix, wrapfunc);
    return Ok(output);
  }

  /** The printing loops of indent: the lines of each logical row, and the separator
      after a row while hasHeader is still up, which it then takes down. */
  method PrintRows(layout: Layout, logicalRows: seq<seq<seq<string>>>, hasHeader: bool) returns (output: string)
    ensures output == Printed(layout, logicalRows, hasHeader)
  {
    output := "";
    var header := hasHeader;
    for i := 0 to |logicalRows|
      invariant output + Printed(layout, logicalRows[i..], header) == Printed(layout, logicalRows, hasHeader)
    {
      var lines := WriteRows(layout, logicalRows[i]);
      var separator := if header then layout.separator + "\n" else "";
      PrintedStep(layout, logicalRows[i..], header);
      assert logicalRows[i..][1..] == logicalRows[i + 1..];
      Associate(output, lines, separator, Printed(layout, logicalRows[i + 1..], false));
      output := output + lines + separator;
      if header {
        header := false;
      }
    }
    assert logicalRows[|logicalRows|..] == [];
  }

  /** The total length of some strings. */
  function LengthSum(parts: seq<string>): int {
    if parts == [] then 0 else LengthSum(parts[..|parts| - 1]) + |parts[|parts| - 1]|
  }

  /** delim.join(parts) is as long as the parts plus one delim between each two. */
  lemma {:induction false} JoinLength(delim: string, parts: seq<string>)
    requires |parts| >= 1
    ensures |Join(delim, parts)| == LengthSum(parts) + |delim| * (|parts| - 1)
  {
    var n := |parts| - 1;
    if n > 0 {
      var init, last := parts[..n], parts[n];
      JoinLength(delim, init);
      assert |Join(delim, parts)| == |Join(delim, init)| + |delim| + |last|;
      assert LengthSum(parts) == LengthSum(init) + |last|;
      assert |delim| * n == |delim| * (n - 1) + |delim|;
    } else {
      assert parts[..0] == [];
    }
  }

  lemma {:induction false} LengthSumOf(parts: seq<string>, widths: seq<int>)
    requires |parts| == |widths| && forall j :: 0 <= j < |parts| ==> |parts[j]| == widths[j]
    ensures LengthSum(parts) == SumOf(widths)
  {
    if parts != [] {
      var n := |parts| - 1;
      LengthSumOf(parts[..n], widths[..n]);
    }
  }

  lemma {:induction false} SumOfNonNegative(widths: seq<int>)
    requires forall j :: 0 <= j < |widths| ==> widths[j] >= 0
    ensures SumOf(widths) >= 0
  {
    if widths != [] {
      SumOfNonNegative(widths[..|widths| - 1]);
    }
  }

  /** A line of a row with a cell for every column, none wider than its column, is
      exactly as long as the separator line is meant to be. */
  lemma {:induction false} LineLength(layout: Layout, row: seq<string>)
    requires |row| == |layout.widths| >= 1
    requires forall j :: 0 <= j < |row| ==> |row[j]| <= layout.widths[j]
    ensures |Line(layout, row)| == SeparatorLength(layout.widths, layout.prefix, layout.delim, layout.postfix)
  {
    var n := |row|;
    var cells := seq(n, j requires 0 <= j < n => Pad(layout.justify, row[j], layout.widths[j]));
    JoinLength(layout.delim, cells);
    LengthSumOf(cells, layout.widths);
  }

  /** The separator line: one headerChar for every character of a full line. */
  lemma {:induction false} SeparatorShape(physical: seq<seq<string>>, headerChar: string, delim: string,
                                          just: Justify, prefix: string, postfix: string)
    requires |physical| >= 1 && |physical[0]| >= 1 && |headerChar| == 1
    ensures var layout := LayoutOf(physical, headerChar, delim, just, prefix, postfix);
            |layout.widths| >= 1
            && |layout.separator| == SeparatorLength(layout.widths, prefix, delim, postfix)
            && forall x :: 0 <= x < |layout.separator| ==> layout.separator[x] == headerChar[0]
  {
    var widths := MaxWidths(physical);
    SumOfNonNegative(widths);
    var n := SeparatorLength(widths, prefix, delim, postfix);
    assert n >= 0 && n * |headerChar| == n;
  }

  /** Every line of the table whose physical row has all the columns has the
      separator's length, for a one-character headerChar. */
  lemma {:induction false} LinesMatchSeparator(physical: seq<seq<string>>, headerChar: string, delim: string,
                                               just: Justify, prefix: string, postfix: string, i: int)
    requires 0 <= i < |physical| && |physical[i]| == ColumnCount(physical) && |physical[0]| >= 1 && |headerChar| == 1
    ensures var layout := LayoutOf(physical, headerChar, delim, just, prefix, postfix);
            |Line(layout, physical[i])| == |layout.separator|
  {
    var layout := LayoutOf(physical, headerChar, delim, just, prefix, postfix);
    var row := physical[i];
    forall j | 0 <= j < |row| ensures |row[j]| <= layout.widths[j] {
      var _ := ColumnWidthMax(physical, j);
      assert Cell(physical[i], j) == row[j];
    }
    SeparatorShape(physical, headerChar, delim, just, prefix, postfix);
    LineLength(layout, row);
  }

  /** The rows of a rectangular table break into physical rows of the same length, so
      each of them has all the columns. */
  lemma {:induction false} RectangularRows(rows: seq<seq<string>>, wrapfunc: string -> string, n: nat)
    requires rows != [] && forall i :: 0 <= i < |rows| ==> |rows[i]| == n
    ensures var physical := Flatten(Logical(rows, wrapfunc));
            forall i :: 0 <= i < |physical| ==> |physical[i]| == n
  {
    FlattenLengths(Logical(rows, wrapfunc), n);
  }

  lemma {:induction false} FlattenLengths(logical: seq<seq<seq<string>>>, n: nat)
    requires forall i, k :: 0 <= i < |logical| && 0 <= k < |logical[i]| ==> |logical[i][k]| == n
    ensures forall i :: 0 <= i < |Flatten(logical)| ==> |Flatten(logical)[i]| == n
  {
    if logical != [] {
      FlattenLengths(logical[1..], n);
      assert forall i :: 1 <= i < |logical| ==> logical[1..][i - 1] == logical[i];
    }
  }

  /** Without the header flag no separator is printed: the output is the lines of all
      the physical rows in order. */
  lemma {:induction false} PrintedPlain(layout: Layout, logical: seq<seq<seq<string>>>)
    ensures Printed(layout, logical, false) == Block(layout, Flatten(logical))
  {
    if logical != [] {
      PrintedPlain(layout, logical[1..]);
      BlockAppend(layout, logical[0], Flatten(logical[1..]));
    }
  }

  lemma {:induction false} BlockSnoc(layout: Layout, rows: seq<seq<string>>)
    requires rows != []
    ensures Block(layout, rows) == Block(layout, rows[..|rows| - 1]) + Printout(layout, rows[|rows| - 1])
  {
  }

  lemma {:induction false} BlockAppend(layout: Layout, a: seq<seq<string>>, b: seq<seq<string>>)
    ensures Block(layout, a + b) == Block(layout, a) + Block(layout, b)
  {
    if b != [] {
      var n := |b| - 1;
      var ab, init := a + b, a + b[..n];
      assert ab[..|ab| - 1] == init && ab[|ab| - 1] == b[n];
      BlockAppend(layout, a, b[..n]);
      var x, y, z := Block(layout, a), Block(layout, b[..n]), Printout(layout, b[n]);
      assert Block(layout, init) == x + y;
      BlockSnoc(layout, ab);
      BlockSnoc(layout, b);
      assert x + y + z == x + (y + z);
    } else {
      assert a + b == a;
    }
  }

  /** The separator appears once, right after the lines of the first row, when the table
      has a header; and not at all when it has none. */
  lemma {:induction false} HeaderOnce(rows: seq<seq<string>>, hasHeader: bool, headerChar: string, delim: string,
                                      justify: string, prefix: string, postfix: string, wrapfunc: string -> string)
    requires Indented(rows, hasHeader, headerChar, delim, justify, false, prefix, postfix, wrapfunc).Ok?
    ensures var logical := Logical(rows, wrapfunc);
            var r := Indented(rows, hasHeader, headerChar, delim, justify, false, prefix, postfix, wrapfunc);
            var layout := LayoutOf(Flatten(logical), headerChar, delim, JustifyOf(justify).value, prefix, postfix);
            (hasHeader ==> r.value == Block(layout, logical[0]) + (layout.separator + "\n") + Block(layout, Flatten(logical[1..])))
            && (!hasHeader ==> r.value == Block(layout, Flatten(logical)))
  {
    IndentedOk(rows, hasHeader, headerChar, delim, justify, prefix, postfix, wrapfunc);
    var logical := Logical(rows, wrapfunc);
    var layout := LayoutOf(Flatten(logical), headerChar, delim, JustifyOf(justify).value, prefix, postfix);
    if hasHeader {
      PrintedStep(layout, logical, true);
      PrintedPlain(layout, logical[1..]);
    } else {
      PrintedPlain(layout, logical);
    }
  }

  /** With the default wrapfunc, the identity, a row of one-line items is one physical
      row. */
  lemma {:induction false} SingleLine(row: seq<string>, wrapfunc: string -> string)
    requires forall s :: wrapfunc(s) == s
    requires row != [] && forall j :: 0 <= j < |row| ==> '\n' !in row[j]
    ensures PhysicalRows(row, wrapfunc) == [row]
  {
    var parts := seq(|row|, j requires 0 <= j < |row| => Split(wrapfunc(row[j]), '\n'));
    forall j | 0 <= j < |row| ensures parts[j] == [row[j]] {
      OneLine(row[j]);
    }
    var height := Tallest(parts);
    assert height == 1;
    var physical := PhysicalRows(row, wrapfunc);
    assert |physical| == 1;
    assert physical[0] == row;
  }

  lemma {:induction false} OneLine(s: string)
    requires '\n' !in s
    ensures Split(s, '\n') == [s]
  {
    var k := Find(s, '\n');
    if k < |s| {
      assert false;
    }
  }
}
