/**
 What stripping and lower-casing make of the name of a series: prefixes in brackets go, words are kept and
 put one space apart, and letters lose their case.
 */
module Names {
  import opened Similarity

  // ---------------------------------------------------------------- case

  const UPPER: string := "ABCDEFGHIJKLMNOPQRSTUVWXYZ"
  const LOWER: string := "abcdefghijklmnopqrstuvwxyz"

  lemma Alphabets(k: nat)
    requires k < 26
    ensures |UPPER| == |LOWER| == 26 && UPPER[k] as int == 'A' as int + k && LOWER[k] as int == 'a' as int + k
  {
    assert k in {0, 1, 2, 3, 4, 5, 6, 7, 8, 9, 10, 11, 12, 13, 14, 15, 16, 17, 18, 19, 20, 21, 22, 23, 24, 25};
  }

  /** Each capital letter becomes the small one, and everything else stays. */
  lemma LowerCase(s: string, i: nat)
    requires i < |s|
    ensures forall k :: 0 <= k < 26 && s[i] == UPPER[k] ==> ToLower(s)[i] == LOWER[k]
    ensures s[i] !in UPPER ==> ToLower(s)[i] == s[i]
  {
    forall k | 0 <= k < 26 ensures UPPER[k] as int == 'A' as int + k && LOWER[k] as int == 'a' as int + k {
      Alphabets(k);
    }
    if 'A' <= s[i] <= 'Z' {
      assert s[i] == UPPER[s[i] as int - 'A' as int];
    }
  }

  // ---------------------------------------------------------------- prefixes

  /** What the pattern \s matches. */
  predicate IsBlank(c: char) {
    c == ' ' || c == '\t' || c == '\n' || c == '\r' || c == 12 as char
  }

  predicate AllBlank(s: string) {
    forall i :: 0 <= i < |s| ==> IsBlank(s[i])
  }

  lemma {:induction false} TrimBlanks(space: string, rest: string)
    requires AllBlank(space)
    ensures TrimLeft(space + rest, WHITESPACE) == TrimLeft(rest, WHITESPACE)
  {
    if space == "" {
      assert space + rest == rest;
    } else {
      TrimBlanks(space[1..], rest);
      assert (space + rest)[1..] == space[1..] + rest;
    }
  }

  lemma {:induction false} ClosingBehind(tag: string, rest: string)
    requires ']' !in tag
    ensures Closing(tag + "]" + rest) == |tag|
  {
    var s := tag + "]" + rest;
    if tag != "" {
      ClosingBehind(tag[1..], rest);
      assert s[1..] == tag[1..] + "]" + rest;
    }
  }

  /** A leading group in brackets is dropped, and the blanks behind it. */
  lemma PrefixIsDropped(tag: string, space: string, rest: string)
    requires ']' !in tag && AllBlank(space) && (rest != "" ==> !IsBlank(rest[0]))
    ensures StripPrefixes("[" + (tag + "]" + (space + rest))) == StripPrefixes(rest)
  {
    var behind := tag + "]" + (space + rest);
    var name := "[" + behind;
    ClosingBehind(tag, space + rest);
    assert name[1..] == behind;
    assert name[Closing(name) + 1..] == space + rest;
    TrimBlanks(space, rest);
  }

  lemma {:induction false} NoClosing(s: string)
    ensures Closing(s) == |s| <==> ']' !in s
  {
    if s != "" && s[0] != ']' {
      NoClosing(s[1..]);
    }
  }

  /** A name without such a group only has its blanks put in order. */
  lemma NoPrefixIsDropped(name: string)
    requires name == "" || name[0] != '[' || ']' !in name
    ensures StripPrefixes(name) == NormalizeSpace(name)
  {
    NoClosing(name);
  }

  // ---------------------------------------------------------------- words

  function WordEnd(s: string): (k: nat)
    ensures k <= |s|
    ensures forall i :: 0 <= i < k ==> !IsBlank(s[i])
    ensures k < |s| ==> IsBlank(s[k])
  {
    if s == "" || IsBlank(s[0]) then 0 else 1 + WordEnd(s[1..])
  }

  /** The longest runs of characters that are not blank. */
  function Words(s: string): seq<string>
    decreases |s|
  {
    if s == "" then []
    else if IsBlank(s[0]) then Words(s[1..])
    else [s[..WordEnd(s)]] + Words(s[WordEnd(s)..])
  }

  function Spaced(words: seq<string>): string {
    if words == [] then "" else if |words| == 1 then words[0] else words[0] + " " + Spaced(words[1..])
  }

  lemma {:induction false} SkipBlanks(s: string)
    ensures Words(TrimLeft(s, WHITESPACE)) == Words(s)
    ensures TrimLeft(s, WHITESPACE) != "" ==> !IsBlank(TrimLeft(s, WHITESPACE)[0])
    ensures TrimLeft(s, WHITESPACE) == s[|s| - |TrimLeft(s, WHITESPACE)|..]
    ensures TrimLeft(s, WHITESPACE) == "" ==> AllBlank(s)
  {
    if s != "" && IsBlank(s[0]) {
      SkipBlanks(s[1..]);
    }
  }

  lemma {:induction false} CollapseWord(word: string, rest: string)
    requires forall i :: 0 <= i < |word| ==> !IsBlank(word[i])
    ensures CollapseSpace(word + rest) == word + CollapseSpace(rest)
  {
    if word == "" {
      assert word + rest == rest;
    } else {
      CollapseWord(word[1..], rest);
      assert (word + rest)[1..] == word[1..] + rest;
    }
  }

  function Tail(s: string): string {
    if s != "" && IsBlank(s[|s| - 1]) then " " else ""
  }

  /** What is left of a text behind its leading blanks. */
  lemma BehindBlanks(s: string) returns (end: string)
    requires s != "" && IsBlank(s[0])
    ensures |end| < |s| && end == s[|s| - |end|..] && (end != "" ==> !IsBlank(end[0]))
    ensures end == "" ==> IsBlank(s[|s| - 1])
    ensures CollapseSpace(s) == " " + CollapseSpace(end) && Words(s) == Words(end)
  {
    end := TrimLeft(s[1..], WHITESPACE);
    SkipBlanks(s[1..]);
    assert |s| > 1 ==> s[1..][|s| - 2] == s[|s| - 1];
  }

  lemma WordInFront(s: string) returns (word: string, rest: string)
    requires s != "" && !IsBlank(s[0])
    ensures word == s[..WordEnd(s)] && s == word + rest && |rest| < |s| && (rest != "" ==> IsBlank(rest[0]))
    ensures rest == "" ==> WordEnd(s) == |s|
    ensures Words(s) == [word] + Words(rest) && CollapseSpace(s) == word + CollapseSpace(rest)
  {
    word, rest := s[..WordEnd(s)], s[WordEnd(s)..];
    assert s == word + rest;
    CollapseWord(word, rest);
  }

  lemma EndOfBoth(s: string, word: string, rest: string, end: string)
    requires s == word + rest && |end| < |rest| && end == rest[|rest| - |end|..]
    ensures s[|s| - |end|..] == end && s[|s| - 1] == rest[|rest| - 1]
  {
  }

  lemma OneMoreWord(s: string, word: string, rest: string, end: string)
    requires s == word + rest && |end| < |rest| && end == rest[|rest| - |end|..]
    requires if end == "" then IsBlank(rest[|rest| - 1]) else Words(end) != []
    ensures word + (" " + (Spaced(Words(end)) + Tail(end))) == Spaced([word] + Words(end)) + Tail(s)
  {
    EndOfBoth(s, word, rest, end);
    TailOfEnd(s, end);
    if end == "" {
      LastWord(word);
    } else {
      FirstWord(word, Words(end), Tail(end));
    }
  }

  lemma LastWord(word: string)
    ensures word + (" " + (Spaced(Words("")) + Tail(""))) == Spaced([word] + Words("")) + " "
  {
    assert " " + ("" + "") == " " && [word] + Words("") == [word];
  }

  /** Collapsing a text that starts with a word leaves its words, spaced, and a space if blanks follow. */
  lemma {:induction false} CollapsedWords(s: string)
    requires s != "" ==> !IsBlank(s[0])
    ensures CollapseSpace(s) == Spaced(Words(s)) + Tail(s)
    decreases |s|
  {
    if s != "" {
      var word, rest := WordInFront(s);
      if rest == "" {
        WholeWord(s);
      } else {
        var end := BehindBlanks(rest);
        CollapsedWords(end);
        OneMoreWord(s, word, rest, end);
      }
    }
  }

  lemma WholeWord(s: string)
    requires s != "" && WordEnd(s) == |s|
    ensures Spaced(Words(s)) == s && Tail(s) == "" && CollapseSpace(s) == s
  {
    assert s[..|s|] == s && s + "" == s;
    CollapseWord(s, "");
    assert Words(s) == [s];
  }

  /** The tail is that of what is left of the text. */
  lemma TailOfEnd(s: string, end: string)
    requires |end| < |s| && s[|s| - |end|..] == end && (end == "" ==> IsBlank(s[|s| - 1]))
    ensures Tail(s) == if end == "" then " " else Tail(end)
  {
    if end != "" {
      assert end[|end| - 1] == s[|s| - 1];
    }
  }

  lemma FirstWord(word: string, words: seq<string>, tail: string)
    requires words != []
    ensures word + (" " + (Spaced(words) + tail)) == Spaced([word] + words) + tail
  {
    assert ([word] + words)[1..] == words;
    assert word + (" " + (Spaced(words) + tail)) == (word + " " + Spaced(words)) + tail;
  }

  // ---------------------------------------------------------------- ends

  lemma {:induction false} TrimSpaceBehind(s: string)
    ensures TrimRight(TrimLeft(s + " ", TRIMMED), TRIMMED) == TrimRight(TrimLeft(s, TRIMMED), TRIMMED)
  {
    var longer := s + " ";
    if s == "" {
      assert longer[1..] == "";
    } else if s[0] in TRIMMED {
      TrimSpaceBehind(s[1..]);
      assert longer[1..] == s[1..] + " ";
    } else {
      assert longer[..|longer| - 1] == s;
    }
  }

  lemma TrimSpaceBefore(s: string)
    ensures TrimLeft(" " + s, TRIMMED) == TrimLeft(s, TRIMMED)
  {
    assert (" " + s)[1..] == s;
  }

  /** The words one space apart; vertical tabs at the two ends go as well. */
  lemma NormalizedWords(s: string)
    ensures NormalizeSpace(s) == TrimRight(TrimLeft(Spaced(Words(s)), TRIMMED), TRIMMED)
  {
    var words := Spaced(Words(s));
    if s != "" && IsBlank(s[0]) {
      var end := BehindBlanks(s);
      CollapsedWords(end);
      TrimSpaceBefore(words + Tail(end));
    } else {
      CollapsedWords(s);
    }
    TrimSpaceBehind(words);
    assert words + "" == words;
  }

  lemma {:induction false} WordsAreSolid(s: string)
    requires (11 as char) !in s
    ensures forall i :: 0 <= i < |Words(s)| ==> Solid(Words(s)[i])
    decreases |s|
  {
    if s != "" {
      if IsBlank(s[0]) {
        WordsAreSolid(s[1..]);
      } else {
        var word, rest := s[..WordEnd(s)], s[WordEnd(s)..];
        WordsAreSolid(rest);
        assert Words(s) == [word] + Words(rest);
      }
    }
  }

  /** A text that starts and ends with nothing to trim. */
  predicate Solid(word: string) {
    word != "" && word[0] !in TRIMMED && word[|word| - 1] !in TRIMMED
  }

  lemma {:induction false} SpacedIsSolid(words: seq<string>)
    requires words != [] && forall i :: 0 <= i < |words| ==> Solid(words[i])
    ensures Solid(Spaced(words))
  {
    if |words| > 1 {
      SpacedIsSolid(words[1..]);
      var rest := Spaced(words[1..]);
      assert Spaced(words)[|Spaced(words)| - 1] == rest[|rest| - 1];
    }
  }

  /** A text without vertical tabs becomes its words, one space apart. */
  lemma NormalizedIsWords(s: string)
    requires (11 as char) !in s
    ensures NormalizeSpace(s) == Spaced(Words(s))
  {
    NormalizedWords(s);
    WordsAreSolid(s);
    if Words(s) != [] {
      SpacedIsSolid(Words(s));
    }
  }
}
