/** The line wrapper of the code generator: greedy, and broken at explicit newlines. */
module LineWrap {
  import opened Prelude

  const NL := '\n'

  // ---------------------------------------------------------------- Python's string operations

  /** `text.split(c)` for a one-character separator. */
  function Split(c: char, text: string): (parts: seq<string>)
    ensures |parts| >= 1
  {
    if text == [] then [""]
    else
      var rest := Split(c, text[1..]);
      if text[0] == c then [""] + rest else [[text[0]] + rest[0]] + rest[1..]
  }

  /** `" ".join(words)` */
  function Join(words: seq<string>): string {
    if words == [] then ""
    else if |words| == 1 then words[0]
    else words[0] + " " + Join(words[1..])
  }

  /** `sum(map(len, words))` */
  function TotalLength(words: seq<string>): nat {
    if words == [] then 0 else |words[0]| + TotalLength(words[1..])
  }

  function Before(text: string): string {
    if text == [] || text[0] == NL then [] else [text[0]] + Before(text[1..])
  }

  /** From the first newline on. */
  function FromNewline(text: string): (rest: string)
    ensures |rest| <= |text|
    ensures NL in text <==> rest != []
    ensures rest != [] ==> rest[0] == NL
  {
    if text == [] || text[0] == NL then text else FromNewline(text[1..])
  }

  /** Every match of `(.*)\n(.*)` replaced by its first group. */
  function Prologue(word: string): string
    decreases |word|
  {
    if NL !in word then word
    else Before(word) + Prologue(FromNewline(FromNewline(word)[1..]))
  }

  /** Every match of `(.*)\n(.*)` replaced by its second group. */
  function Epilogue(word: string): string
    decreases |word|
  {
    if NL !in word then word
    else
      var after := FromNewline(word)[1..];
      Before(after) + Epilogue(FromNewline(after))
  }

  // ---------------------------------------------------------------- the algorithm

  datatype State = State(lines: seq<string>, wordList: seq<string>)

  predicate Fits(width: int, wordList: seq<string>, word: string) {
    TotalLength(wordList) + |wordList| + |word| <= width
  }

  function Step(width: int, st: State, word: string): State {
    if NL in word then
      State(st.lines + [Join(st.wordList + [Prologue(word)])],
            if |Epilogue(word)| > 0 then [Epilogue(word)] else [])
    else if Fits(width, st.wordList, word) then
      st.(wordList := st.wordList + [word])
    else
      State(st.lines + [Join(st.wordList)], [word])
  }

  function Steps(width: int, st: State, words: seq<string>): State
    decreases |words|
  {
    if words == [] then st else Steps(width, Step(width, st, words[0]), words[1..])
  }

  function Finish(st: State): seq<string> {
    st.lines + (if st.wordList != [] then [Join(st.wordList)] else [])
  }

  function Wrap(text: string, width: int): seq<string> {
    if text == [] then [""] else Finish(Steps(width, State([], []), Split(' ', text)))
  }

  method SplitLine(line: string, width: int) returns (lines: seq<string>)
    ensures lines == Wrap(line, width)
  {
    if line == [] {
      return [""];
    }
    var words := Split(' ', line);
    var wordList: seq<string> := [];
    lines := [];
    ghost var whole := Steps(width, State([], []), words);
    for i := 0 to |words|
      invariant Steps(width, State(lines, wordList), words[i..]) == whole
    {
      var word := words[i];
      assert words[i..][1..] == words[i + 1..];
      if NL in word {
        wordList := wordList + [Prologue(word)];
        lines := lines + [Join(wordList)];
        wordList := [];
        if |Epilogue(word)| > 0 {
          wordList := [Epilogue(word)];
        }
      } else if Fits(width, wordList, word) {
        wordList := wordList + [word];
      } else {
        lines := lines + [Join(wordList)];
        wordList := [word];
      }
    }
    if |wordList| > 0 {
      lines := lines + [Join(wordList)];
    }
  }

  // ---------------------------------------------------------------- facts about the string operations

  lemma {:induction false} TotalLengthConcat(xs: seq<string>, ys: seq<string>)
    ensures TotalLength(xs + ys) == TotalLength(xs) + TotalLength(ys)
  {
    if xs == [] {
      assert xs + ys == ys;
    } else {
      assert (xs + ys)[1..] == xs[1..] + ys;
      TotalLengthConcat(xs[1..], ys);
    }
  }

  lemma JoinLength(words: seq<string>)
    requires words != []
    ensures |Join(words)| == TotalLength(words) + |words| - 1
  {
  }

  lemma {:induction false} SplitConcat(c: char, word: string, rest: string)
    requires c !in word
    ensures Split(c, word + [c] + rest) == [word] + Split(c, rest)
  {
    var text := word + [c] + rest;
    if word == [] {
      assert text[1..] == rest;
    } else {
      assert text[1..] == word[1..] + [c] + rest;
      SplitConcat(c, word[1..], rest);
      assert [word[0]] + word[1..] == word;
    }
  }

  lemma {:induction false} SplitWhole(c: char, word: string)
    requires c !in word
    ensures Split(c, word) == [word]
  {
    if word != [] {
      SplitWhole(c, word[1..]);
      assert [word[0]] + word[1..] == word;
    }
  }

  predicate SpaceFree(words: seq<string>) {
    forall w :: w in words ==> ' ' !in w
  }

  lemma {:induction false} SplitJoin(words: seq<string>)
    requires words != [] && SpaceFree(words)
    ensures Split(' ', Join(words)) == words
  {
    if |words| == 1 {
      SplitWhole(' ', words[0]);
    } else {
      SplitJoin(words[1..]);
      SplitConcat(' ', words[0], Join(words[1..]));
      assert words == [words[0]] + words[1..];
    }
  }

  /** The parts of a split contain no separator, and only characters of the text. */
  lemma {:induction false} SplitParts(c: char, text: string)
    ensures forall p, x :: p in Split(c, text) && x in p ==> x in text && x != c
  {
    if text != [] {
      SplitParts(c, text[1..]);
      var rest := Split(c, text[1..]);
      forall p, x | p in Split(c, text) && x in p
        ensures x in text && x != c
      {
        if p !in rest && p != "" {
          assert p == [text[0]] + rest[0];
          assert x == text[0] || x in rest[0];
        }
      }
    }
  }

  lemma {:induction false} FlattenOne(part: string)
    ensures Flatten([part]) == part
  {
    assert [part][1..] == [];
    assert part + Flatten([]) == part;
  }

  lemma {:induction false} SplitFirst(text: string)
    ensures Split(NL, text) ==
            [Before(text)] + (if NL in text then Split(NL, FromNewline(text)[1..]) else [])
  {
    if text != [] && text[0] != NL {
      SplitFirst(text[1..]);
    }
  }

  /** The groups of the newline pattern in terms of the newline-separated pieces of the word. */
  lemma {:induction false} GroupsOfWord(word: string)
    requires NL in word
    ensures Prologue(word) == Split(NL, word)[0]
    ensures Epilogue(word) == Flatten(Split(NL, word)[1..])
    decreases |word|
  {
    var after := FromNewline(word)[1..];
    var rest := FromNewline(after);
    SplitFirst(word);
    SplitFirst(after);
    if rest == [] {
      assert Prologue(rest) == "" && Epilogue(rest) == "";
      assert Split(NL, word)[1..] == [Before(after)];
      FlattenOne(Before(after));
    } else {
      GroupsOfWord(rest);
      SplitFirst(rest);
      assert Before(rest) == "";
      assert Split(NL, rest) == [""] + Split(NL, rest[1..]);
      assert Split(NL, word)[1..] == [Before(after)] + Split(NL, rest[1..]);
      assert Split(NL, rest)[1..] == Split(NL, rest[1..]);
    }
  }

  // ---------------------------------------------------------------- the words are kept

  predicate IsNonEmpty(word: string) {
    word != ""
  }

  function NonEmpty(words: seq<string>): seq<string> {
    Filter(IsNonEmpty, words)
  }

  lemma {:induction false} NonEmptyOne(word: string)
    ensures NonEmpty([word]) == if word != "" then [word] else []
  {
    FilterOne(IsNonEmpty, word);
  }

  lemma {:induction false} NonEmptyTwo(word: string, word': string)
    ensures NonEmpty([word, word']) == NonEmpty([word]) + NonEmpty([word'])
  {
    FilterConcat(IsNonEmpty, [word], [word']);
    assert [word] + [word'] == [word, word'];
  }

  /** The non-empty words of the text, separated by spaces and newlines. */
  function WordsOfText(words: seq<string>): seq<string> {
    if words == [] then [] else NonEmpty(Split(NL, words[0])) + WordsOfText(words[1..])
  }

  /** The non-empty words of the wrapped lines. */
  function WordsOfLines(lines: seq<string>): seq<string> {
    if lines == [] then [] else NonEmpty(Split(' ', lines[0])) + WordsOfLines(lines[1..])
  }

  /** What one word of the input contributes to the output. */
  function Contribution(word: string): seq<string> {
    if NL in word then NonEmpty([Prologue(word), Epilogue(word)]) else NonEmpty([word])
  }

  function Contributions(words: seq<string>): seq<string> {
    if words == [] then [] else Contribution(words[0]) + Contributions(words[1..])
  }

  /** At most one of the pieces after the first newline of the word is not empty. */
  predicate OnePieceAfterNewline(word: string) {
    |NonEmpty(Split(NL, word)[1..])| <= 1
  }

  lemma {:induction false} WordsOfJoined(words: seq<string>)
    requires SpaceFree(words)
    ensures NonEmpty(Split(' ', Join(words))) == NonEmpty(words)
  {
    if words == [] {
      NonEmptyOne("");
    } else {
      SplitJoin(words);
    }
  }

  lemma {:induction false} WordsOfLinesAppend(lines: seq<string>, line: string)
    ensures WordsOfLines(lines + [line]) == WordsOfLines(lines) + NonEmpty(Split(' ', line))
  {
    if lines == [] {
      assert lines + [line] == [line];
      assert [line][1..] == [];
    } else {
      assert (lines + [line])[1..] == lines[1..] + [line];
      WordsOfLinesAppend(lines[1..], line);
    }
  }

  lemma {:induction false} GroupsAreSpaceFree(word: string)
    requires ' ' !in word && NL in word
    ensures ' ' !in Prologue(word) && ' ' !in Epilogue(word)
  {
    GroupsOfWord(word);
    SplitParts(NL, word);
    var parts := Split(NL, word);
    assert parts[0] in parts;
    FlattenMembers(parts[1..]);
    forall p | p in parts[1..]
      ensures ' ' !in p
    {
      assert p in parts;
    }
  }

  /** The words so far: those of the finished lines and those of the line in progress. */
  function WordsOfState(st: State): seq<string> {
    WordsOfLines(st.lines) + NonEmpty(st.wordList)
  }

  lemma {:induction false} NewlineStepWords(width: int, st: State, word: string)
    requires SpaceFree(st.wordList) && ' ' !in word && NL in word
    ensures SpaceFree(Step(width, st, word).wordList)
    ensures WordsOfState(Step(width, st, word)) == WordsOfState(st) + Contribution(word)
  {
    var pro, epi := Prologue(word), Epilogue(word);
    GroupsAreSpaceFree(word);
    LineWords(st, pro);
    NonEmptyTwo(pro, epi);
    NonEmptyOne(epi);
    var lines := st.lines + [Join(st.wordList + [pro])];
    assert Step(width, st, word).lines == lines;
    assert NonEmpty(Step(width, st, word).wordList) == NonEmpty([epi]);
    var words, a, b := WordsOfState(st), NonEmpty([pro]), NonEmpty([epi]);
    assert words + a + b == words + (a + b);
  }

  /** Finishing the line in progress with one more word. */
  lemma {:induction false} LineWords(st: State, word: string)
    requires SpaceFree(st.wordList) && ' ' !in word
    ensures WordsOfLines(st.lines + [Join(st.wordList + [word])]) == WordsOfState(st) + NonEmpty([word])
  {
    WordsOfJoined(st.wordList + [word]);
    WordsOfLinesAppend(st.lines, Join(st.wordList + [word]));
    FilterConcat(IsNonEmpty, st.wordList, [word]);
    var a, b, c := WordsOfLines(st.lines), NonEmpty(st.wordList), NonEmpty([word]);
    assert a + (b + c) == a + b + c;
  }

  lemma {:induction false} StepWords(width: int, st: State, word: string)
    requires SpaceFree(st.wordList) && ' ' !in word
    ensures SpaceFree(Step(width, st, word).wordList)
    ensures WordsOfState(Step(width, st, word)) == WordsOfState(st) + Contribution(word)
  {
    if NL in word {
      NewlineStepWords(width, st, word);
    } else if Fits(width, st.wordList, word) {
      FilterConcat(IsNonEmpty, st.wordList, [word]);
    } else {
      WordsOfJoined(st.wordList);
      WordsOfLinesAppend(st.lines, Join(st.wordList));
    }
  }

  lemma {:induction false} StepsWords(width: int, st: State, words: seq<string>)
    requires SpaceFree(st.wordList) && SpaceFree(words)
    ensures SpaceFree(Steps(width, st, words).wordList)
    ensures WordsOfState(Steps(width, st, words)) == WordsOfState(st) + Contributions(words)
    decreases |words|
  {
    if words != [] {
      StepWords(width, st, words[0]);
      StepsWords(width, Step(width, st, words[0]), words[1..]);
    }
  }

  lemma {:induction false} FinishWords(st: State)
    requires SpaceFree(st.wordList)
    ensures WordsOfLines(Finish(st)) == WordsOfState(st)
  {
    if st.wordList != [] {
      WordsOfLinesAppend(st.lines, Join(st.wordList));
      WordsOfJoined(st.wordList);
    } else {
      assert st.lines + [] == st.lines;
    }
  }

  lemma {:induction false} EmptyTextWords()
    ensures WordsOfLines([""]) == [] && Contributions([""]) == []
  {
    NonEmptyOne("");
    assert [""][1..] == [];
    assert WordsOfLines([]) == [] && Contributions([]) == [];
  }

  lemma {:induction false} WrapWords(text: string, width: int)
    ensures WordsOfLines(Wrap(text, width)) == Contributions(Split(' ', text))
  {
    if text == [] {
      EmptyTextWords();
    } else {
      var words, start := Split(' ', text), State([], []);
      SplitParts(' ', text);
      StepsWords(width, start, words);
      FinishWords(Steps(width, start, words));
      assert WordsOfState(start) == [];
    }
  }

  lemma {:induction false} FlattenNonEmpty(parts: seq<string>)
    ensures Flatten(parts) == "" <==> NonEmpty(parts) == []
    ensures |NonEmpty(parts)| <= 1 ==> NonEmpty([Flatten(parts)]) == NonEmpty(parts)
  {
    NonEmptyOne(Flatten(parts));
    if parts != [] {
      var rest := Flatten(parts[1..]);
      FlattenNonEmpty(parts[1..]);
      assert Flatten(parts) == parts[0] + rest;
      assert NonEmpty(parts) == (if IsNonEmpty(parts[0]) then [parts[0]] else []) + NonEmpty(parts[1..]);
      assert [] + NonEmpty(parts[1..]) == NonEmpty(parts[1..]);
      NonEmptyOne(rest);
      if parts[0] == "" {
        assert Flatten(parts) == rest;
      } else if rest == "" {
        assert Flatten(parts) == parts[0];
      }
    }
  }

  /** A word loses none of its pieces exactly when at most one follows its first newline. */
  lemma {:induction false} ContributionOfWord(word: string)
    ensures |Contribution(word)| <= |NonEmpty(Split(NL, word))|
    ensures |Contribution(word)| == |NonEmpty(Split(NL, word))| <==> OnePieceAfterNewline(word)
    ensures OnePieceAfterNewline(word) ==> Contribution(word) == NonEmpty(Split(NL, word))
  {
    if NL in word {
      var parts := Split(NL, word);
      GroupsOfWord(word);
      FlattenNonEmpty(parts[1..]);
      NonEmptyOne(parts[0]);
      NonEmptyOne(Flatten(parts[1..]));
      NonEmptyTwo(parts[0], Flatten(parts[1..]));
      assert NonEmpty(parts) == NonEmpty([parts[0]]) + NonEmpty(parts[1..]);
    } else {
      SplitWhole(NL, word);
      assert [word][1..] == [] && NonEmpty([]) == [];
    }
  }

  lemma {:induction false} ContributionsOfWords(words: seq<string>)
    ensures |Contributions(words)| <= |WordsOfText(words)|
    ensures Contributions(words) == WordsOfText(words) <==> forall w :: w in words ==> OnePieceAfterNewline(w)
    ensures |Contributions(words)| == |WordsOfText(words)| ==> Contributions(words) == WordsOfText(words)
  {
    if words != [] {
      ContributionOfWord(words[0]);
      ContributionsOfWords(words[1..]);
      assert words == [words[0]] + words[1..];
    }
  }

  /**
   The wrapped text has the words of the original, in order, if and only if every
   space-separated word has at most one non-empty piece after its first newline.
   */
  lemma {:induction false} WordsKeptIff(text: string, width: int)
    ensures WordsOfLines(Wrap(text, width)) == WordsOfText(Split(' ', text)) <==>
              forall w :: w in Split(' ', text) ==> OnePieceAfterNewline(w)
  {
    WrapWords(text, width);
    ContributionsOfWords(Split(' ', text));
  }

  /** Where the condition fails: the second and the third piece of a word are joined. */
  lemma {:induction false} SecondNewlineJoinsWords(width: int, a: string, b: string, c: string)
    requires SpaceFree([a, b, c]) && NewlineFree([a, b, c]) && b != "" && c != ""
    ensures var text := a + [NL] + (b + [NL] + c);
            WordsOfLines(Wrap(text, width)) != WordsOfText(Split(' ', text))
  {
    var text := a + [NL] + (b + [NL] + c);
    assert a in [a, b, c] && b in [a, b, c] && c in [a, b, c];
    WordsKeptIff(text, width);
    SplitWhole(' ', text);
    ThreePieces(a, b, c);
    assert text in Split(' ', text);
  }

  lemma {:induction false} ThreePieces(a: string, b: string, c: string)
    requires NL !in a && NL !in b && NL !in c && b != "" && c != ""
    ensures !OnePieceAfterNewline(a + [NL] + (b + [NL] + c))
  {
    SplitConcat(NL, a, b + [NL] + c);
    SplitConcat(NL, b, c);
    SplitWhole(NL, c);
    assert Split(NL, a + [NL] + (b + [NL] + c))[1..] == [b, c];
    NonEmptyTwo(b, c);
    NonEmptyOne(b);
    NonEmptyOne(c);
  }

  // ---------------------------------------------------------------- the width of the lines

  predicate NewlineFree(words: seq<string>) {
    forall w :: w in words ==> NL !in w
  }

  /** The line in progress is within the width, or is a single word that is too long. */
  predicate LineOk(width: int, words: seq<string>, wordList: seq<string>) {
    wordList == [] || |Join(wordList)| <= width
    || (|wordList| == 1 && wordList[0] in words && |wordList[0]| > width)
  }

  /** An output line is within the width, empty, or a single word that is too long. */
  predicate WidthOk(width: int, words: seq<string>, line: string) {
    |line| <= width || line == "" || (line in words && |line| > width)
  }

  lemma {:induction false} StepWidth(width: int, words: seq<string>, st: State, word: string)
    requires word in words && NL !in word
    requires LineOk(width, words, st.wordList) && forall l :: l in st.lines ==> WidthOk(width, words, l)
    ensures var next := Step(width, st, word);
            LineOk(width, words, next.wordList) && forall l :: l in next.lines ==> WidthOk(width, words, l)
  {
    if Fits(width, st.wordList, word) {
      TotalLengthConcat(st.wordList, [word]);
      assert TotalLength([word]) == |word|;
      JoinLength(st.wordList + [word]);
    }
  }

  lemma {:induction false} StepsWidth(width: int, words: seq<string>, st: State, rest: seq<string>)
    requires NewlineFree(rest) && forall w :: w in rest ==> w in words
    requires LineOk(width, words, st.wordList) && forall l :: l in st.lines ==> WidthOk(width, words, l)
    ensures forall l :: l in Finish(Steps(width, st, rest)) ==> WidthOk(width, words, l)
    decreases |rest|
  {
    if rest != [] {
      assert rest[0] in rest;
      StepWidth(width, words, st, rest[0]);
      StepsWidth(width, words, Step(width, st, rest[0]), rest[1..]);
    }
  }

  /** Without newlines every line is within the width, or empty, or a single over-long word. */
  lemma {:induction false} WrapWidth(text: string, width: int)
    requires NL !in text
    ensures forall l :: l in Wrap(text, width) ==> WidthOk(width, Split(' ', text), l)
  {
    if text != [] {
      SplitParts(' ', text);
      StepsWidth(width, Split(' ', text), State([], []), Split(' ', text));
    }
  }

  // ---------------------------------------------------------------- greedy wrapping is optimal

  /** The groups of words that the algorithm puts on the lines, starting from a line in progress. */
  function Greedy(width: int, wordList: seq<string>, words: seq<string>): seq<seq<string>>
    decreases |words|
  {
    if words == [] then (if wordList == [] then [] else [wordList])
    else if Fits(width, wordList, words[0]) then Greedy(width, wordList + [words[0]], words[1..])
    else [wordList] + Greedy(width, [words[0]], words[1..])
  }

  function JoinAll(groups: seq<seq<string>>): (lines: seq<string>)
    ensures |lines| == |groups|
  {
    if groups == [] then [] else [Join(groups[0])] + JoinAll(groups[1..])
  }

  lemma {:induction false} StepsAreGreedy(width: int, st: State, words: seq<string>)
    requires NewlineFree(words)
    ensures Finish(Steps(width, st, words)) == st.lines + JoinAll(Greedy(width, st.wordList, words))
    decreases |words|
  {
    if words == [] {
      assert JoinAll([]) == [] && JoinAll([st.wordList]) == [Join(st.wordList)];
    } else {
      assert words[0] in words;
      StepsAreGreedy(width, Step(width, st, words[0]), words[1..]);
    }
  }

  /** The lines hold the words in order: nothing but the line breaks is chosen. */
  lemma {:induction false} GreedyFlattens(width: int, wordList: seq<string>, words: seq<string>)
    ensures Flatten(Greedy(width, wordList, words)) == wordList + words
    decreases |words|
  {
    if words == [] {
      assert [wordList][1..] == [];
      assert Flatten([wordList]) == wordList;
    } else if Fits(width, wordList, words[0]) {
      GreedyFlattens(width, wordList + [words[0]], words[1..]);
      assert wordList + [words[0]] + words[1..] == wordList + words;
    } else {
      GreedyFlattens(width, [words[0]], words[1..]);
      assert [words[0]] + words[1..] == words;
    }
  }

  lemma {:induction false} FitsLess(width: int, front: seq<string>, back: seq<string>, word: string)
    requires Fits(width, front + back, word)
    ensures Fits(width, back, word)
  {
    TotalLengthConcat(front, back);
  }

  /** A line in progress that starts later never needs more lines. */
  lemma {:induction false} LaterStartNoWorse(width: int, front: seq<string>, back: seq<string>, words: seq<string>)
    requires back != []
    ensures |Greedy(width, back, words)| <= |Greedy(width, front + back, words)|
    decreases |words|, 0
  {
    if words != [] {
      var w, rest := words[0], words[1..];
      if Fits(width, front + back, w) {
        FitsLess(width, front, back, w);
        assert front + back + [w] == front + (back + [w]);
        LaterStartNoWorse(width, front, back + [w], rest);
      } else if Fits(width, back, w) {
        OneMoreLineIsEnough(width, back, [w], rest);
      }
    }
  }

  /** Breaking the line in progress somewhere costs at most one line. */
  lemma {:induction false} OneMoreLineIsEnough(width: int, front: seq<string>, back: seq<string>, words: seq<string>)
    requires back != []
    ensures |Greedy(width, front + back, words)| <= 1 + |Greedy(width, back, words)|
    decreases |words|, 1
  {
    if words != [] {
      var w, rest := words[0], words[1..];
      if Fits(width, front + back, w) {
        FitsLess(width, front, back, w);
        assert front + back + [w] == front + (back + [w]);
        OneMoreLineIsEnough(width, front, back + [w], rest);
      } else if Fits(width, back, w) {
        LaterStartNoWorse(width, back, [w], rest);
      }
    }
  }

  /** A way to break words into lines of at most the given width. */
  predicate Breaking(width: int, groups: seq<seq<string>>, words: seq<string>) {
    Flatten(groups) == words && forall g :: g in groups ==> |Join(g)| <= width
  }

  /** Words that fit on the line in progress are all put there. */
  lemma {:induction false} GreedyAbsorbs(width: int, wordList: seq<string>, group: seq<string>, words: seq<string>)
    requires group != [] ==> |Join(wordList + group)| <= width
    ensures Greedy(width, wordList, group + words) == Greedy(width, wordList + group, words)
    decreases |group|
  {
    if group == [] {
      assert group + words == words && wordList + group == wordList;
    } else {
      var w := group[0];
      assert wordList + group == wordList + [w] + group[1..];
      assert (group + words)[1..] == group[1..] + words;
      JoinLength(wordList + group);
      TotalLengthConcat(wordList, group);
      GreedyAbsorbs(width, wordList + [w], group[1..], words);
    }
  }

  lemma {:induction false} FirstWordFits(width: int, groups: seq<seq<string>>, words: seq<string>)
    requires Breaking(width, groups, words) && words != []
    ensures Fits(width, [], words[0])
  {
    if groups[0] == [] {
      assert Flatten(groups[1..]) == words;
      FirstWordFits(width, groups[1..], words);
    } else {
      JoinLength(groups[0]);
      assert groups[0] in groups;
    }
  }

  lemma {:induction false} NewLineIsEnough(width: int, group: seq<string>, words: seq<string>)
    requires group != [] && (words != [] ==> Fits(width, [], words[0]))
    ensures |Greedy(width, group, words)| <= 1 + |Greedy(width, [], words)|
  {
    if words != [] {
      assert [] + [words[0]] == [words[0]];
      if Fits(width, group, words[0]) {
        OneMoreLineIsEnough(width, group, [words[0]], words[1..]);
      }
    }
  }

  lemma {:induction false} GreedyIsOptimal(width: int, groups: seq<seq<string>>, words: seq<string>)
    requires Breaking(width, groups, words)
    ensures |Greedy(width, [], words)| <= |groups|
    decreases |groups|
  {
    if groups != [] {
      var group, rest := groups[0], Flatten(groups[1..]);
      assert Breaking(width, groups[1..], rest);
      GreedyIsOptimal(width, groups[1..], rest);
      if group == [] {
        assert words == rest;
      } else {
        assert [] + group == group && group in groups;
        GreedyAbsorbs(width, [], group, rest);
        if rest != [] {
          FirstWordFits(width, groups[1..], rest);
        }
        NewLineIsEnough(width, group, rest);
      }
    }
  }

  /** No way of breaking a newline-free text into lines within the width needs fewer lines. */
  lemma {:induction false} WrapIsOptimal(text: string, width: int, groups: seq<seq<string>>)
    requires NL !in text && Breaking(width, groups, Split(' ', text))
    ensures |Wrap(text, width)| <= |groups|
  {
    if text != [] {
      SplitParts(' ', text);
      StepsAreGreedy(width, State([], []), Split(' ', text));
      GreedyIsOptimal(width, groups, Split(' ', text));
    } else {
      assert groups != [];
    }
  }

  lemma {:induction false} GreedyFits(width: int, wordList: seq<string>, words: seq<string>)
    requires forall w :: w in words ==> |w| <= width
    requires |Join(wordList)| <= width
    ensures forall g :: g in Greedy(width, wordList, words) ==> |Join(g)| <= width
    decreases |words|
  {
    if words != [] {
      var w := words[0];
      assert w in words;
      if Fits(width, wordList, w) {
        TotalLengthConcat(wordList, [w]);
        assert TotalLength([w]) == |w|;
        JoinLength(wordList + [w]);
        GreedyFits(width, wordList + [w], words[1..]);
      } else {
        GreedyFits(width, [w], words[1..]);
      }
    }
  }

  lemma {:induction false} EmptyTextGroups(width: int)
    requires 0 <= width
    ensures Greedy(width, [], Split(' ', "")) == [[""]] && JoinAll([[""]]) == [""]
  {
    var words := [""];
    assert words[1..] == [] && [] + [""] == [""];
    assert Fits(width, [], "");
    assert Greedy(width, [""], []) == [[""]];
    assert Greedy(width, [], words) == Greedy(width, [""], []);
    assert JoinAll([[""]]) == [Join([""])] + JoinAll([]);
  }

  /** The wrapped lines are themselves such a breaking, when every word fits. */
  lemma {:induction false} WrapIsBreaking(text: string, width: int) returns (groups: seq<seq<string>>)
    requires NL !in text && forall w :: w in Split(' ', text) ==> |w| <= width
    ensures Breaking(width, groups, Split(' ', text)) && Wrap(text, width) == JoinAll(groups)
  {
    var words := Split(' ', text);
    groups := Greedy(width, [], words);
    assert words[0] in words;
    GreedyFlattens(width, [], words);
    GreedyFits(width, [], words);
    SplitParts(' ', text);
    StepsAreGreedy(width, State([], []), words);
    if text == [] {
      EmptyTextGroups(width);
    }
  }

  // ---------------------------------------------------------------- explicit newlines

  lemma {:induction false} OneNewlineGroups(before: string, after: string)
    requires NL !in before && NL !in after
    ensures var word := before + [NL] + after;
            NL in word && Prologue(word) == before && Epilogue(word) == after
  {
    var word := before + [NL] + after;
    assert word[|before|] == NL;
    SplitConcat(NL, before, after);
    SplitWhole(NL, after);
    GroupsOfWord(word);
    assert Split(NL, word)[1..] == [after];
    FlattenOne(after);
  }

  /** A newline inside a word ends the line after the part before it; the part after it starts the next line. */
  lemma {:induction false} NewlineEndsLine(width: int, st: State, before: string, after: string)
    requires NL !in before && NL !in after
    ensures Step(width, st, before + [NL] + after) ==
            State(st.lines + [Join(st.wordList + [before])], if after == "" then [] else [after])
  {
    OneNewlineGroups(before, after);
  }

  /**
   The words between two newlines. The rest of a word after a newline starts a line without a
   test of the width; the other words are added one by one.
   */
  datatype Segment = Segment(start: seq<string>, words: seq<string>)

  /** What is left of a word after its first newline, with further newlines removed. */
  function AfterNewline(word: string): string {
    Flatten(Split(NL, word)[1..])
  }

  /** The segment that a word with a newline begins. */
  function NextSegment(word: string): Segment {
    Segment(if AfterNewline(word) == "" then [] else [AfterNewline(word)], [])
  }

  /** The segments of the words that follow an open one; a newline closes all but the last. */
  function Segments(seg: Segment, words: seq<string>): (segs: seq<Segment>)
    ensures segs != []
    decreases |words|
  {
    if words == [] then [seg]
    else if NL in words[0] then
      [seg.(words := seg.words + [Split(NL, words[0])[0]])] + Segments(NextSegment(words[0]), words[1..])
    else Segments(seg.(words := seg.words + [words[0]]), words[1..])
  }

  /** The greedy groups, except that the last word always stays on the line. */
  function ClosedGroups(width: int, seg: Segment): seq<seq<string>>
    requires seg.words != []
  {
    var n := |seg.words| - 1;
    var groups := Greedy(width, seg.start, seg.words[..n]);
    if groups == [] then [seg.words[n..]]
    else groups[..|groups| - 1] + [groups[|groups| - 1] + [seg.words[n]]]
  }

  /** The groups of words on the lines of the output. */
  function SegmentGroups(width: int, segs: seq<Segment>): seq<seq<string>> {
    if segs == [] then []
    else if |segs| == 1 then Greedy(width, segs[0].start, segs[0].words)
    else (if segs[0].words == [] then [] else ClosedGroups(width, segs[0])) + SegmentGroups(width, segs[1..])
  }

  lemma {:induction false} JoinAllConcat(xs: seq<seq<string>>, ys: seq<seq<string>>)
    ensures JoinAll(xs + ys) == JoinAll(xs) + JoinAll(ys)
  {
    if xs == [] {
      assert xs + ys == ys;
    } else {
      assert (xs + ys)[1..] == xs[1..] + ys;
      JoinAllConcat(xs[1..], ys);
    }
  }

  /** The state after words without newlines: all greedy groups but the last are lines already. */
  lemma {:induction false} GreedyState(width: int, st: State, words: seq<string>)
    requires NewlineFree(words) && (st.wordList != [] || words != [])
    ensures var groups := Greedy(width, st.wordList, words);
            && groups != []
            && Steps(width, st, words) ==
               State(st.lines + JoinAll(groups[..|groups| - 1]), groups[|groups| - 1])
    decreases |words|
  {
    var groups := Greedy(width, st.wordList, words);
    if words == [] {
      assert groups[..0] == [];
      assert st.lines + [] == st.lines;
    } else {
      assert words[0] in words;
      var next := Step(width, st, words[0]);
      GreedyState(width, next, words[1..]);
      if !Fits(width, st.wordList, words[0]) {
        var rest := Greedy(width, [words[0]], words[1..]);
        assert groups == [st.wordList] + rest;
        assert groups[..|groups| - 1] == [st.wordList] + rest[..|rest| - 1];
      }
    }
  }

  /** The newline step, on the state that the words since the last newline lead to. */
  lemma {:induction false} ClosingStep(width: int, lines: seq<string>, seg: Segment, word: string)
    requires NewlineFree(seg.words) && NL in word
    ensures var closed := seg.(words := seg.words + [Split(NL, word)[0]]);
            Step(width, Steps(width, State(lines, seg.start), seg.words), word) ==
            State(lines + JoinAll(ClosedGroups(width, closed)), NextSegment(word).start)
  {
    var last := Split(NL, word)[0];
    var all := seg.words + [last];
    GroupsOfWord(word);
    assert all[..|all| - 1] == seg.words && all[|all| - 1] == last;
    if seg.start == [] && seg.words == [] {
      assert all[0..] == [last] && [] + [last] == [last];
      assert JoinAll([[last]]) == [Join([last])];
    } else {
      GreedyState(width, State(lines, seg.start), seg.words);
      var groups := Greedy(width, seg.start, seg.words);
      var front, back := groups[..|groups| - 1], groups[|groups| - 1];
      JoinAllConcat(front, [back + [last]]);
      assert JoinAll([back + [last]]) == [Join(back + [last])];
      assert lines + JoinAll(front) + [Join(back + [last])] == lines + (JoinAll(front) + [Join(back + [last])]);
    }
  }

  lemma {:induction false} StepsAppend(width: int, st: State, words: seq<string>, word: string)
    ensures Steps(width, st, words + [word]) == Step(width, Steps(width, st, words), word)
    decreases |words|
  {
    if words == [] {
      assert words + [word] == [word] && [word][1..] == [];
      assert Steps(width, Step(width, st, word), []) == Step(width, st, word);
    } else {
      assert (words + [word])[1..] == words[1..] + [word];
      StepsAppend(width, Step(width, st, words[0]), words[1..], word);
    }
  }

  /** A run over any words puts the groups of the segments on the lines. */
  lemma {:induction false} StepsBySegments(width: int, lines: seq<string>, seg: Segment, words: seq<string>)
    requires NewlineFree(seg.words)
    ensures Finish(Steps(width, Steps(width, State(lines, seg.start), seg.words), words)) ==
            lines + JoinAll(SegmentGroups(width, Segments(seg, words)))
    decreases |words|
  {
    if words == [] {
      StepsAreGreedy(width, State(lines, seg.start), seg.words);
    } else if NL in words[0] {
      var closed := seg.(words := seg.words + [Split(NL, words[0])[0]]);
      var next := NextSegment(words[0]);
      var groups, rest := ClosedGroups(width, closed), Segments(next, words[1..]);
      ClosingStep(width, lines, seg, words[0]);
      StepsBySegments(width, lines + JoinAll(groups), next, words[1..]);
      JoinAllConcat(groups, SegmentGroups(width, rest));
      assert ([closed] + rest)[1..] == rest;
      AppendTwice(lines, JoinAll(groups), JoinAll(SegmentGroups(width, rest)));
    } else {
      StepsAppend(width, State(lines, seg.start), seg.words, words[0]);
      StepsBySegments(width, lines, seg.(words := seg.words + [words[0]]), words[1..]);
    }
  }

  lemma AppendTwice(xs: seq<string>, ys: seq<string>, zs: seq<string>)
    ensures xs + ys + zs == xs + (ys + zs)
  {
  }

  /** The segments of a text, from the beginning. */
  function TextSegments(text: string): seq<Segment> {
    Segments(Segment([], []), Split(' ', text))
  }

  /** The lines of any text, in terms of its segments. */
  lemma {:induction false} WrapBySegments(text: string, width: int)
    ensures Wrap(text, width) == if text == "" then [""] else JoinAll(SegmentGroups(width, TextSegments(text)))
  {
    var start := State([], []);
    assert Steps(width, start, []) == start;
    StepsBySegments(width, [], Segment([], []), Split(' ', text));
  }

  // ---------------------------------------------------------------- the width of any text

  /** Every line is within the width, as the documentation of the wrapper says. */
  predicate AllWithin(width: int, groups: seq<seq<string>>) {
    forall g :: g in groups ==> |Join(g)| <= width
  }

  predicate WordsFit(width: int, words: seq<string>) {
    forall w :: w in words ==> |w| <= width
  }

  /** The last word of the segment takes no line of its own in a greedy wrapping. */
  predicate NoLineForLastWord(width: int, seg: Segment)
    requires seg.words != []
  {
    var front := seg.words[..|seg.words| - 1];
    (seg.start == [] && front == [])
    || |Greedy(width, seg.start, seg.words)| == |Greedy(width, seg.start, front)|
  }

  /** Segments as they are cut from a text. */
  predicate AreSegments(segs: seq<Segment>) {
    && (forall i :: 0 <= i < |segs| ==> |segs[i].start| <= 1)
    && (forall i :: 0 <= i < |segs| - 1 ==> segs[i].words != [])
  }

  /** Every word fits, and the last word before a newline takes no line of its own. */
  predicate SegmentsFit(width: int, segs: seq<Segment>)
    requires AreSegments(segs)
  {
    && (forall i :: 0 <= i < |segs| ==> WordsFit(width, segs[i].start + segs[i].words))
    && (forall i :: 0 <= i < |segs| - 1 ==> NoLineForLastWord(width, segs[i]))
  }

  lemma {:induction false} AllWithinConcat(width: int, xs: seq<seq<string>>, ys: seq<seq<string>>)
    ensures AllWithin(width, xs + ys) <==> AllWithin(width, xs) && AllWithin(width, ys)
  {
    assert forall g :: g in xs + ys <==> g in xs || g in ys;
  }

  lemma {:induction false} WordWithin(words: seq<string>, w: string)
    requires w in words
    ensures |w| <= |Join(words)|
  {
    if words[0] != w {
      WordWithin(words[1..], w);
    }
  }

  /** Lines within the width need words within the width. */
  lemma {:induction false} WithinNeedsFit(width: int, groups: seq<seq<string>>)
    requires AllWithin(width, groups)
    ensures WordsFit(width, Flatten(groups))
  {
    FlattenMembers(groups);
    forall w | w in Flatten(groups)
      ensures |w| <= width
    {
      var g :| g in groups && w in g;
      WordWithin(g, w);
    }
  }

  lemma {:induction false} FlattenConcat(xs: seq<seq<string>>, ys: seq<seq<string>>)
    ensures Flatten(xs + ys) == Flatten(xs) + Flatten(ys)
  {
    if xs == [] {
      assert xs + ys == ys;
    } else {
      assert (xs + ys)[1..] == xs[1..] + ys;
      FlattenConcat(xs[1..], ys);
      assert xs[0] + (Flatten(xs[1..]) + Flatten(ys)) == xs[0] + Flatten(xs[1..]) + Flatten(ys);
    }
  }

  lemma {:induction false} LastGroupFlattens(groups: seq<seq<string>>, w: string)
    requires groups != []
    ensures Flatten(groups[..|groups| - 1] + [groups[|groups| - 1] + [w]]) == Flatten(groups) + [w]
  {
    var front, back := groups[..|groups| - 1], groups[|groups| - 1];
    assert groups == front + [back];
    FlattenConcat(front, [back]);
    FlattenConcat(front, [back + [w]]);
    assert [back][1..] == [] && [back + [w]][1..] == [];
    assert Flatten([back]) == back && Flatten([back + [w]]) == back + [w];
    assert Flatten(front) + (back + [w]) == Flatten(front) + back + [w];
  }

  lemma {:induction false} ClosedFlattens(width: int, seg: Segment)
    requires seg.words != []
    ensures Flatten(ClosedGroups(width, seg)) == seg.start + seg.words
  {
    var n := |seg.words| - 1;
    var front, w := seg.words[..n], seg.words[n];
    var groups := Greedy(width, seg.start, front);
    GreedyFlattens(width, seg.start, front);
    assert seg.words == front + [w];
    if groups == [] {
      assert Flatten(groups) == [];
      assert seg.words[n..] == [w] && [[w]][1..] == [];
      assert Flatten([[w]]) == [w];
    } else {
      LastGroupFlattens(groups, w);
    }
  }

  /** One more word either joins the last greedy group or opens a new one. */
  lemma {:induction false} GreedyAppend(width: int, wordList: seq<string>, words: seq<string>, w: string)
    requires wordList != [] || words != []
    ensures var groups, more := Greedy(width, wordList, words), Greedy(width, wordList, words + [w]);
            && groups != []
            && (if Fits(width, groups[|groups| - 1], w)
                then more == groups[..|groups| - 1] + [groups[|groups| - 1] + [w]]
                else more == groups + [[w]])
    decreases |words|
  {
    var groups, more := Greedy(width, wordList, words), Greedy(width, wordList, words + [w]);
    if words == [] {
      assert words + [w] == [w] && [w][1..] == [];
      assert groups == [wordList] && groups[..0] == [];
      assert Greedy(width, wordList + [w], []) == [wordList + [w]];
      assert Greedy(width, [w], []) == [[w]];
    } else {
      assert (words + [w])[1..] == words[1..] + [w];
      if Fits(width, wordList, words[0]) {
        GreedyAppend(width, wordList + [words[0]], words[1..], w);
      } else {
        GreedyAppend(width, [words[0]], words[1..], w);
        var rest := Greedy(width, [words[0]], words[1..]);
        assert groups[|groups| - 1] == rest[|rest| - 1];
        assert groups[..|groups| - 1] == [wordList] + rest[..|rest| - 1];
      }
    }
  }

  lemma {:induction false} FitsIsWithin(width: int, wordList: seq<string>, w: string)
    ensures Fits(width, wordList, w) <==> |Join(wordList + [w])| <= width
  {
    TotalLengthConcat(wordList, [w]);
    assert TotalLength([w]) == |w|;
    JoinLength(wordList + [w]);
  }

  /** One more word on the last line keeps it within the width exactly when greedy opens no new line. */
  lemma {:induction false} LastWordWithin(width: int, groups: seq<seq<string>>, more: seq<seq<string>>, w: string)
    requires groups != [] && AllWithin(width, groups)
    requires if Fits(width, groups[|groups| - 1], w)
             then more == groups[..|groups| - 1] + [groups[|groups| - 1] + [w]]
             else more == groups + [[w]]
    ensures AllWithin(width, groups[..|groups| - 1] + [groups[|groups| - 1] + [w]]) <==> |more| == |groups|
  {
    var front, last := groups[..|groups| - 1], groups[|groups| - 1];
    FitsIsWithin(width, last, w);
    AllWithinConcat(width, front, [last + [w]]);
    assert forall g :: g in front ==> g in groups;
    assert last + [w] in [last + [w]];
  }

  /** When the words fit, a closed segment is within the width exactly when its last word needs no line. */
  lemma {:induction false} ClosedWithin(width: int, seg: Segment)
    requires seg.words != [] && WordsFit(width, seg.start + seg.words) && |seg.start| <= 1
    ensures AllWithin(width, ClosedGroups(width, seg)) <==> NoLineForLastWord(width, seg)
  {
    var n := |seg.words| - 1;
    var front, w := seg.words[..n], seg.words[n];
    assert seg.words == front + [w];
    StartWithin(width, seg);
    if seg.start == [] && front == [] {
      var only := seg.words[n..];
      assert Join(only) == w && w in seg.words;
      assert ClosedGroups(width, seg) == [only];
    } else {
      var groups, more := Greedy(width, seg.start, front), Greedy(width, seg.start, front + [w]);
      GreedyAppend(width, seg.start, front, w);
      GreedyFits(width, seg.start, front);
      LastWordWithin(width, groups, more, w);
    }
  }

  /** A closed segment is within the width exactly when it meets the condition. */
  lemma {:induction false} ClosedSegment(width: int, seg: Segment)
    requires seg.words != [] && |seg.start| <= 1
    ensures AllWithin(width, ClosedGroups(width, seg)) <==>
              WordsFit(width, seg.start + seg.words) && NoLineForLastWord(width, seg)
  {
    if AllWithin(width, ClosedGroups(width, seg)) {
      WithinNeedsFit(width, ClosedGroups(width, seg));
      ClosedFlattens(width, seg);
    }
    if WordsFit(width, seg.start + seg.words) {
      ClosedWithin(width, seg);
    }
  }

  /** The last segment is within the width exactly when its words are. */
  lemma {:induction false} OpenSegment(width: int, seg: Segment)
    requires |seg.start| <= 1
    ensures AllWithin(width, Greedy(width, seg.start, seg.words)) <==> WordsFit(width, seg.start + seg.words)
  {
    GreedyFlattens(width, seg.start, seg.words);
    if AllWithin(width, Greedy(width, seg.start, seg.words)) {
      WithinNeedsFit(width, Greedy(width, seg.start, seg.words));
    }
    if WordsFit(width, seg.start + seg.words) {
      if seg.words != [] {
        StartWithin(width, seg);
        GreedyFits(width, seg.start, seg.words);
      } else if seg.start != [] {
        assert seg.start[0] in seg.start + seg.words;
      }
    }
  }

  lemma {:induction false} SegmentsWithin(width: int, segs: seq<Segment>)
    requires AreSegments(segs)
    ensures AllWithin(width, SegmentGroups(width, segs)) <==> SegmentsFit(width, segs)
  {
    if |segs| == 1 {
      OpenSegment(width, segs[0]);
    } else if |segs| > 1 {
      var rest := segs[1..];
      assert forall i :: 0 <= i < |rest| ==> rest[i] == segs[i + 1];
      SegmentsWithin(width, rest);
      ClosedSegment(width, segs[0]);
      AllWithinConcat(width, ClosedGroups(width, segs[0]), SegmentGroups(width, rest));
      SegmentsFitCons(width, segs);
    }
  }

  lemma {:induction false} SegmentsFitCons(width: int, segs: seq<Segment>)
    requires |segs| > 1 && AreSegments(segs) && AreSegments(segs[1..])
    ensures SegmentsFit(width, segs) <==>
              && WordsFit(width, segs[0].start + segs[0].words)
              && NoLineForLastWord(width, segs[0])
              && SegmentsFit(width, segs[1..])
  {
    var rest := segs[1..];
    if SegmentsFit(width, segs) {
      forall i | 0 <= i < |rest|
        ensures WordsFit(width, rest[i].start + rest[i].words)
        ensures i < |rest| - 1 ==> NoLineForLastWord(width, rest[i])
      {
        assert rest[i] == segs[i + 1];
      }
    }
    if SegmentsFit(width, rest) {
      forall i | 0 < i < |segs|
        ensures WordsFit(width, segs[i].start + segs[i].words)
        ensures i < |segs| - 1 ==> NoLineForLastWord(width, segs[i])
      {
        assert rest[i - 1] == segs[i];
      }
    }
  }

  lemma {:induction false} CutIntoSegments(seg: Segment, words: seq<string>)
    requires |seg.start| <= 1
    ensures AreSegments(Segments(seg, words))
    decreases |words|
  {
    if words != [] {
      if NL in words[0] {
        CutIntoSegments(NextSegment(words[0]), words[1..]);
      } else {
        CutIntoSegments(seg.(words := seg.words + [words[0]]), words[1..]);
      }
    }
  }

  lemma {:induction false} JoinAllMembers(width: int, groups: seq<seq<string>>)
    ensures (forall l :: l in JoinAll(groups) ==> |l| <= width) <==> AllWithin(width, groups)
  {
    if groups != [] {
      JoinAllMembers(width, groups[1..]);
      AllWithinConcat(width, [groups[0]], groups[1..]);
      assert groups == [groups[0]] + groups[1..];
      assert groups[0] in [groups[0]] && Join(groups[0]) in JoinAll(groups);
      assert forall l :: l in JoinAll(groups) <==> l == Join(groups[0]) || l in JoinAll(groups[1..]);
    }
  }

  /**
   For every text and width, all lines are within the width, as the documentation says, if and only
   if every word fits and the last word before a newline takes no line of its own in a greedy
   wrapping of the words since the newline before it.
   */
  lemma {:induction false} WidthIff(text: string, width: int)
    ensures AreSegments(TextSegments(text))
    ensures (forall l :: l in Wrap(text, width) ==> |l| <= width) <==> SegmentsFit(width, TextSegments(text))
  {
    var segs := TextSegments(text);
    CutIntoSegments(Segment([], []), Split(' ', text));
    WrapBySegments(text, width);
    SegmentsWithin(width, segs);
    JoinAllMembers(width, SegmentGroups(width, segs));
    if text == "" {
      EmptyTextSegments();
      assert "" in Wrap(text, width);
      assert "" in segs[0].start + segs[0].words;
    }
  }

  lemma {:induction false} EmptyTextSegments()
    ensures TextSegments("") == [Segment([], [""])]
  {
    assert [""][1..] == [] && [] + [""] == [""];
    assert Segments(Segment([], [""]), []) == [Segment([], [""])];
  }

  lemma {:induction false} StartWithin(width: int, seg: Segment)
    requires seg.words != [] && WordsFit(width, seg.start + seg.words) && |seg.start| <= 1
    ensures |Join(seg.start)| <= width
    ensures WordsFit(width, seg.words[..|seg.words| - 1]) && WordsFit(width, seg.words)
  {
    assert forall w :: w in seg.words ==> w in seg.start + seg.words;
    assert seg.words[0] in seg.words;
    if seg.start != [] {
      assert seg.start[0] in seg.start + seg.words;
    }
  }
  /**
   Where the condition fails: two words that fit, but not together, end up on one line when the
   second is followed by a newline.
   */
  lemma {:induction false} NewlineOverflows(width: nat, w: string, v: string)
    requires NewlineFree([w, v]) && SpaceFree([w, v]) && v != ""
    requires |w| <= width && |v| <= width && |w| + 1 + |v| > width
    ensures Wrap(w + " " + v + [NL], width) == [w + " " + v] && |w + " " + v| > width
  {
    var last, start := v + [NL], State([], []);
    assert w in [w, v] && v in [w, v];
    assert w + " " + v + [NL] == w + " " + last && v + [NL] + "" == last;
    SplitTwo(w, last);
    StepsTwo(width, start, w, last);
    assert [] + [w] == [w] && [w] + [v] == [w, v];
    assert Step(width, start, w) == State([], [w]);
    NewlineEndsLine(width, State([], [w]), v, "");
    JoinTwo(w, v);
    assert Steps(width, start, [w, last]) == State([w + " " + v], []);
  }

  lemma {:induction false} SplitTwo(w: string, v: string)
    requires ' ' !in w && ' ' !in v
    ensures Split(' ', w + " " + v) == [w, v]
  {
    SplitConcat(' ', w, v);
    SplitWhole(' ', v);
  }

  lemma {:induction false} StepsTwo(width: int, st: State, w: string, v: string)
    ensures Steps(width, st, [w, v]) == Step(width, Step(width, st, w), v)
  {
    assert [w, v][1..] == [v] && [v][1..] == [];
    assert Steps(width, Step(width, st, w), [v]) == Step(width, Step(width, st, w), v);
  }

  lemma {:induction false} JoinTwo(w: string, v: string)
    ensures Join([w, v]) == w + " " + v
  {
    assert [w, v][1..] == [v];
  }
}
