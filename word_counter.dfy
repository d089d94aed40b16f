/*
 * The word counter's text processing: the case-insensitive order on words,
 * the set of separator characters, the scanner that cuts a line into
 * maximal runs of separators and of word characters, the loop that keeps the
 * words of a line, and the loops that count occurrences and then empty the
 * map of counts into a fresh map and a queue of its words.
 */
module WordCounter {

  // ---------------------------------------------------------------------------
  // Compare: s1.toLowerCase().compareTo(s2.toLowerCase())
  // ---------------------------------------------------------------------------

  /** Lower case of an ASCII letter; every other character is kept. */
  function Lower(c: char): char
  {
    if 'A' <= c <= 'Z' then (c as int + 32) as char else c
  }

  function ToLower(s: string): string
  {
    seq(|s|, i requires 0 <= i < |s| => Lower(s[i]))
  }

  /**
   * String.compareTo: the difference of the first two characters that
   * differ, or the difference of the lengths when one string is a prefix of
   * the other.
   */
  function CompareTo(a: string, b: string): int
  {
    if |a| == 0 || |b| == 0 then |a| - |b|
    else if a[0] != b[0] then a[0] as int - b[0] as int
    else CompareTo(a[1..], b[1..])
  }

  /** compare: the order of the lower-cased strings. */
  function Compare(s1: string, s2: string): int
  {
    CompareTo(ToLower(s1), ToLower(s2))
  }

  /** compareTo is 0 exactly on equal strings. */
  lemma {:induction false} CompareToZero(a: string, b: string)
    ensures CompareTo(a, b) == 0 <==> a == b
    decreases |a|
  {
    if |a| > 0 && |b| > 0 && a[0] == b[0] {
      CompareToZero(a[1..], b[1..]);
      assert a == [a[0]] + a[1..] && b == [b[0]] + b[1..];
    }
  }

  /** Swapping the strings negates compareTo. */
  lemma {:induction false} CompareToAntisymmetric(a: string, b: string)
    ensures CompareTo(a, b) == -CompareTo(b, a)
    decreases |a|
  {
    if |a| > 0 && |b| > 0 && a[0] == b[0] {
      CompareToAntisymmetric(a[1..], b[1..]);
    }
  }

  /** "Before" under compareTo is transitive. */
  lemma {:induction false} CompareToTransitive(a: string, b: string, c: string)
    requires CompareTo(a, b) < 0 && CompareTo(b, c) < 0
    ensures CompareTo(a, c) < 0
    decreases |a|
  {
    if |a| > 0 && |b| > 0 && |c| > 0 && a[0] == b[0] && b[0] == c[0] {
      CompareToTransitive(a[1..], b[1..], c[1..]);
    }
  }

  /** Compare sees only the lower-cased words: it is 0 exactly when they agree, and is a strict order on them. */
  lemma CompareIgnoresCase(s1: string, s2: string, s3: string)
    ensures Compare(s1, s2) == 0 <==> ToLower(s1) == ToLower(s2)
    ensures Compare(s1, s2) == -Compare(s2, s1)
    ensures Compare(s1, s2) < 0 && Compare(s2, s3) < 0 ==> Compare(s1, s3) < 0
  {
    CompareToZero(ToLower(s1), ToLower(s2));
    CompareToAntisymmetric(ToLower(s1), ToLower(s2));
    if Compare(s1, s2) < 0 && Compare(s2, s3) < 0 {
      CompareToTransitive(ToLower(s1), ToLower(s2), ToLower(s3));
    }
  }

  // ---------------------------------------------------------------------------
  // generateElements
  // ---------------------------------------------------------------------------

  /** generateElements: adds each character of separatorStr to the set. */
  method GenerateElements(separatorStr: string, separatorSet: set<char>) returns (result: set<char>)
    ensures result == separatorSet + set c | c in separatorStr
  {
    result := separatorSet;
    for i := 0 to |separatorStr|
      invariant result == separatorSet + set c | c in separatorStr[..i]
    {
      var c := separatorStr[i];
      if c !in result {
        result := result + {c};
      }
      assert separatorStr[..i + 1] == separatorStr[..i] + [c];
    }
    assert separatorStr[..|separatorStr|] == separatorStr;
  }

  // ---------------------------------------------------------------------------
  // nextWordOrSeparator and the splitting of a line
  // ---------------------------------------------------------------------------

  /** The end of the run of characters from pos on that are separators exactly when isSep is. */
  function RunEnd(text: string, pos: nat, separators: set<char>, isSep: bool): (end: nat)
    requires pos <= |text|
    ensures pos <= end <= |text|
    ensures forall k :: pos <= k < end ==> (text[k] in separators <==> isSep)
    ensures end == |text| || (text[end] in separators <==> !isSep)
    decreases |text| - pos
  {
    if pos == |text| || (text[pos] in separators <==> !isSep) then pos
    else RunEnd(text, pos + 1, separators, isSep)
  }

  /** The end of the maximal segment starting at start: its first character decides its class. */
  function SegmentEnd(text: string, start: nat, separators: set<char>): (end: nat)
    requires start < |text|
    ensures start < end <= |text|
  {
    RunEnd(text, start + 1, separators, text[start] in separators)
  }

  /**
   * nextWordOrSeparator: the segment from start on of characters in the
   * class of the first one, grown until the text ends or the class changes.
   */
  method NextWordOrSeparator(inputText: string, startPosition: int, separatorCharacters: set<char>)
    returns (segment: string)
    requires 0 <= startPosition < |inputText|
    ensures |segment| > 0 && startPosition + |segment| <= |inputText|
    ensures segment == inputText[startPosition..startPosition + |segment|]
    ensures startPosition + |segment| == SegmentEnd(inputText, startPosition, separatorCharacters)
  {
    var startingCharacter := inputText[startPosition];
    segment := [startingCharacter];
    var currentPosition := startPosition + 1;
    if startingCharacter !in separatorCharacters {
      while currentPosition < |inputText| && inputText[currentPosition] !in separatorCharacters
        invariant startPosition < currentPosition <= |inputText|
        invariant segment == inputText[startPosition..currentPosition]
        invariant RunEnd(inputText, currentPosition, separatorCharacters, false) == SegmentEnd(inputText, startPosition, separatorCharacters)
      {
        assert inputText[startPosition..currentPosition + 1] == segment + [inputText[currentPosition]];
        segment := segment + [inputText[currentPosition]];
        currentPosition := currentPosition + 1;
      }
    } else {
      while currentPosition < |inputText| && inputText[currentPosition] in separatorCharacters
        invariant startPosition < currentPosition <= |inputText|
        invariant segment == inputText[startPosition..currentPosition]
        invariant RunEnd(inputText, currentPosition, separatorCharacters, true) == SegmentEnd(inputText, startPosition, separatorCharacters)
      {
        assert inputText[startPosition..currentPosition + 1] == segment + [inputText[currentPosition]];
        segment := segment + [inputText[currentPosition]];
        currentPosition := currentPosition + 1;
      }
    }
  }

  /**
   * The segment at start is nonempty, all of it in the class of its first
   * character, and maximal: the text ends after it or the class changes.
   */
  lemma SegmentClass(text: string, start: nat, separators: set<char>)
    requires start < |text|
    ensures start < SegmentEnd(text, start, separators) <= |text|
    ensures forall k :: start <= k < SegmentEnd(text, start, separators) ==> (text[k] in separators <==> text[start] in separators)
    ensures SegmentEnd(text, start, separators) == |text| ||
            (text[SegmentEnd(text, start, separators)] in separators <==> text[start] !in separators)
  {
  }

  /** The segments of line from pos on, one after the other. */
  function Segments(line: string, pos: nat, separators: set<char>): seq<string>
    requires pos <= |line|
    decreases |line| - pos
  {
    if pos == |line| then []
    else [line[pos..SegmentEnd(line, pos, separators)]] + Segments(line, SegmentEnd(line, pos, separators), separators)
  }

  function Concat(ss: seq<string>): string
  {
    if |ss| == 0 then "" else ss[0] + Concat(ss[1..])
  }

  /** The segments that begin with a word character: the words. */
  function WordsOf(segments: seq<string>, separators: set<char>): seq<string>
  {
    if |segments| == 0 then []
    else if |segments[0]| > 0 && segments[0][0] !in separators then [segments[0]] + WordsOf(segments[1..], separators)
    else WordsOf(segments[1..], separators)
  }

  /** The segments partition the line: put back together they give the line from pos on. */
  lemma {:induction false} SegmentsPartition(line: string, pos: nat, separators: set<char>)
    requires pos <= |line|
    ensures Concat(Segments(line, pos, separators)) == line[pos..]
    decreases |line| - pos
  {
    if pos < |line| {
      var end := SegmentEnd(line, pos, separators);
      SegmentsPartition(line, end, separators);
      assert line[pos..] == line[pos..end] + line[end..];
    }
  }

  /** Every word of a line is nonempty and holds no separator. */
  lemma {:induction false} WordsHaveNoSeparator(line: string, pos: nat, separators: set<char>)
    requires pos <= |line|
    ensures forall w, k :: w in WordsOf(Segments(line, pos, separators), separators) && 0 <= k < |w| ==> w[k] !in separators
    ensures forall w :: w in WordsOf(Segments(line, pos, separators), separators) ==> |w| > 0
    decreases |line| - pos
  {
    if pos < |line| {
      SegmentClass(line, pos, separators);
      WordsHaveNoSeparator(line, SegmentEnd(line, pos, separators), separators);
    }
  }

  /**
   * The inner loop of main: scans the line segment by segment and keeps the
   * segments that do not begin with a separator, in order.
   */
  method WordsOfLine(readLine: string, separatorSet: set<char>) returns (words: seq<string>)
    ensures words == WordsOf(Segments(readLine, 0, separatorSet), separatorSet)
  {
    words := [];
    var position := 0;
    while position < |readLine|
      invariant 0 <= position <= |readLine|
      invariant words + WordsOf(Segments(readLine, position, separatorSet), separatorSet)
             == WordsOf(Segments(readLine, 0, separatorSet), separatorSet)
      decreases |readLine| - position
    {
      var word := NextWordOrSeparator(readLine, position, separatorSet);
      if |word| > 0 && word[0] !in separatorSet {
        words := words + [word];
      }
      position := position + |word|;
    }
  }

  // ---------------------------------------------------------------------------
  // The counting and transfer loops of wordSorting
  // ---------------------------------------------------------------------------

  /** counts is wordsMap with the occurrences of the words in done added. */
  ghost predicate Counted(counts: map<string, int>, wordsMap: map<string, int>, done: seq<string>)
  {
    (forall w :: w in counts <==> w in wordsMap || w in done) &&
    (forall w :: w in counts ==> counts[w] == (if w in wordsMap then wordsMap[w] else 0) + multiset(done)[w])
  }

  /** Counting one more word keeps the counts right. */
  lemma CountOneMore(counts: map<string, int>, wordsMap: map<string, int>, done: seq<string>, word: string)
    requires Counted(counts, wordsMap, done)
    ensures Counted(counts[word := if word in counts then counts[word] + 1 else 1], wordsMap, done + [word])
  {
    assert multiset(done + [word]) == multiset(done) + multiset{word};
  }

  /**
   * The counting loop: dequeues every word and adds 1 to its count in the
   * map, entering it with count 1 the first time.
   */
  method CountWords(words: seq<string>, wordsMap: map<string, int>) returns (counts: map<string, int>)
    ensures forall w :: w in counts <==> w in wordsMap || w in words
    ensures forall w :: w in counts ==> counts[w] == (if w in wordsMap then wordsMap[w] else 0) + multiset(words)[w]
  {
    counts := wordsMap;
    var pending := words;
    ghost var i := 0;
    while |pending| != 0
      invariant 0 <= i <= |words| && pending == words[i..]
      invariant Counted(counts, wordsMap, words[..i])
    {
      var word := pending[0];
      pending := pending[1..];
      CountOneMore(counts, wordsMap, words[..i], word);
      assert words[..i + 1] == words[..i] + [word];
      if word !in counts {
        counts := counts[word := 1];
      } else {
        var oldValue := counts[word];
        var newValue := oldValue + 1;
        counts := counts[word := newValue];
      }
      i := i + 1;
    }
    assert words[..i] == words;
  }

  /**
   * The transfer loop: takes the pairs out of wordsMap one at a time, in
   * any order, copying each into tempMap and its word onto tempWords. The
   * map ends empty and tempWords holds each of its words once.
   */
  method TransferCounts(wordsMap: map<string, int>) returns (tempWords: seq<string>, tempMap: map<string, int>, remaining: map<string, int>)
    ensures remaining == map[]
    ensures tempMap == wordsMap
    ensures |tempWords| == |wordsMap.Keys|
    ensures forall w :: w in tempWords <==> w in wordsMap
  {
    remaining := wordsMap;
    tempWords := [];
    tempMap := map[];
    while |remaining| != 0
      invariant remaining.Keys !! tempMap.Keys
      invariant forall w :: w in wordsMap <==> w in remaining || w in tempMap
      invariant forall w :: w in remaining ==> remaining[w] == wordsMap[w]
      invariant forall w :: w in tempMap ==> tempMap[w] == wordsMap[w]
      invariant forall w :: w in tempWords <==> w in tempMap
      invariant |tempWords| == |tempMap.Keys|
      decreases |remaining|
    {
      var key :| key in remaining;
      var value := remaining[key];
      remaining := remaining - {key};
      assert tempMap.Keys + {key} == (tempMap[key := value]).Keys;
      tempMap := tempMap[key := value];
      tempWords := tempWords + [key];
    }
    assert wordsMap.Keys == tempMap.Keys;
  }
}
