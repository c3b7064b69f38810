/**
 * The embedded-JSON extractor `findJSON` of practica-codi/src/exercici3.js.
 *
 * Every `{` or `[` of the text is tried as a start.  From a start the text is
 * scanned forward with a stack of expected closers, a string-literal flag and a
 * backslash-escape flag.  The first point where the stack empties gives the one
 * balanced candidate of that start; the candidate is handed to the JSON parser,
 * and the longest candidate that parses wins, the earliest one on ties.
 *
 * `JSON.parse` is a library call: it is a parameter `parse` here, returning
 * `None` where the library would throw.
 */
module JsonExtract {
  import opened Wrappers

  predicate IsOpener(c: char) { c == '{' || c == '[' }

  predicate IsCloser(c: char) { c == '}' || c == ']' }

  /** The closer that an opener waits for. */
  function CloserOf(c: char): (r: char)
    requires IsOpener(c)
    ensures IsCloser(r)
    ensures r == '}' <==> c == '{'
  {
    if c == '{' then '}' else ']'
  }

  predicate AllClosers(stack: seq<char>)
  {
    forall k :: 0 <= k < |stack| ==> IsCloser(stack[k])
  }

  /** The state of the forward scan from one start: the stack of expected
    * closers (its top is the last element) and the two string flags. */
  datatype Scanner = Scanner(stack: seq<char>, inString: bool, escaped: bool)

  /** What one character does to the scan. */
  datatype Step = Continue(next: Scanner) | Mismatch | Closed

  /** One character of the inner loop. */
  function Advance(s: Scanner, c: char): (r: Step)
    // inside a string literal nothing but the string flags can change
    ensures s.inString ==> r.Continue? && r.next.stack == s.stack
    // the character after a backslash never ends the string literal
    ensures s.inString && s.escaped ==> r == Continue(s.(escaped := false))
    // only a closer outside a string literal can end the scan
    ensures !r.Continue? ==> !s.inString && IsCloser(c)
    ensures r.Mismatch? <==>
      !s.inString && IsCloser(c) && (|s.stack| == 0 || c != s.stack[|s.stack| - 1])
    ensures r.Closed? <==> !s.inString && IsCloser(c) && s.stack == [c]
    ensures AllClosers(s.stack) && r.Continue? ==> AllClosers(r.next.stack)
    ensures |s.stack| > 0 && r.Continue? ==> |r.next.stack| > 0
  {
    if s.inString then
      if s.escaped then Continue(s.(escaped := false))
      else if c == '\\' then Continue(s.(escaped := true))
      else if c == '"' then Continue(s.(inString := false))
      else Continue(s)
    else if c == '"' then Continue(s.(inString := true))
    else if IsOpener(c) then Continue(s.(stack := s.stack + [CloserOf(c)]))
    else if IsCloser(c) then
      if |s.stack| == 0 || c != s.stack[|s.stack| - 1] then Mismatch
      else
        var popped := s.stack[..|s.stack| - 1];
        if |popped| == 0 then Closed else Continue(s.(stack := popped))
    else Continue(s)
  }

  /** An escaped double quote inside a string literal leaves the scan in the
    * string, exactly as it was before the backslash. */
  lemma EscapedQuoteStaysInString(s: Scanner)
    requires s.inString && !s.escaped
    ensures Advance(s, '\\') == Continue(s.(escaped := true))
    ensures Advance(Advance(s, '\\').next, '"') == Continue(s)
  {
  }

  /** How the scan from one start ends. */
  datatype Outcome = Balanced(end: nat) | Mismatched(at: nat) | Unterminated

  /** The rest of the inner loop, from position `j` in state `s`. */
  function Scan(str: string, j: nat, s: Scanner): (r: Outcome)
    requires j <= |str|
    decreases |str| - j
    ensures r.Balanced? ==> j <= r.end < |str| && IsCloser(str[r.end])
    ensures r.Mismatched? ==> j <= r.at < |str| && IsCloser(str[r.at])
    ensures j == |str| ==> r == Unterminated
  {
    if j == |str| then Unterminated
    else
      match Advance(s, str[j])
      case Mismatch => Mismatched(j)
      case Closed => Balanced(j)
      case Continue(next) => Scan(str, j + 1, next)
  }

  /** The scan from start `i`: one expected closer, outside any string. */
  function ScanFrom(str: string, i: nat): Outcome
    requires i < |str| && IsOpener(str[i])
  {
    Scan(str, i + 1, Scanner([CloserOf(str[i])], false, false))
  }

  /** The balanced candidate of start `i`, if the scan from `i` balances. */
  function Candidate(str: string, i: nat): (r: Option<string>)
    requires i < |str|
    ensures r.Some? ==> IsOpener(str[i])
    ensures r.Some? ==> 2 <= |r.value| <= |str| - i
    ensures r.Some? ==> IsCloser(r.value[|r.value| - 1])
    ensures !IsOpener(str[i]) ==> r.None?
  {
    if !IsOpener(str[i]) then None
    else
      match ScanFrom(str, i)
      case Balanced(j) => Some(str[i..j + 1])
      case _ => None
  }

  /** The number of UTF-16 code units of a character: two for one outside
    * the Basic Multilingual Plane, which JavaScript stores as a surrogate pair. */
  function Utf16Width(c: char): (r: nat)
    ensures r == 1 || r == 2
    ensures r == 2 <==> c as int >= 0x1_0000
  {
    if c as int >= 0x1_0000 then 2 else 1
  }

  /** A JavaScript string's `.length`: the number of its UTF-16 code units. */
  function Utf16Length(s: string): nat
  {
    if s == [] then 0 else Utf16Length(s[..|s| - 1]) + Utf16Width(s[|s| - 1])
  }

  /** Every character takes one or two code units. */
  lemma {:induction false} Utf16LengthBounds(s: string)
    ensures |s| <= Utf16Length(s) <= 2 * |s|
  {
    if s != [] {
      Utf16LengthBounds(s[..|s| - 1]);
    }
  }

  /** Within the Basic Multilingual Plane, code units and characters coincide. */
  lemma {:induction false} Utf16LengthBmp(s: string)
    requires forall k :: 0 <= k < |s| ==> s[k] as int < 0x1_0000
    ensures Utf16Length(s) == |s|
  {
    if s != [] {
      Utf16LengthBmp(s[..|s| - 1]);
    }
  }

  /** The code units of a concatenation are those of its parts. */
  lemma {:induction false} Utf16LengthAppend(s: string, t: string)
    ensures Utf16Length(s + t) == Utf16Length(s) + Utf16Length(t)
  {
    if t != [] {
      assert (s + t)[..|s + t| - 1] == s + t[..|t| - 1];
      Utf16LengthAppend(s, t[..|t| - 1]);
    } else {
      assert s + t == s;
    }
  }

  /** The best candidate so far, as the two accumulators of the source. */
  datatype Best<V> = Best(candidate: string, parsed: Option<V>)

  /** Start `i` yields a candidate that parses. */
  predicate Parses<V>(str: string, parse: string -> Option<V>, i: nat)
  {
    i < |str| && Candidate(str, i).Some? && parse(Candidate(str, i).value).Some?
  }

  /** Offers the candidate of start `i` to the accumulators. */
  function Consider<V>(b: Best<V>, str: string, parse: string -> Option<V>, i: nat): (r: Best<V>)
    requires i < |str|
    // either nothing changes, or a strictly longer candidate that parsed replaces the best
    ensures r == b || (Parses(str, parse, i) && Candidate(str, i) == Some(r.candidate)
                       && r.parsed == parse(r.candidate) && Utf16Length(r.candidate) > Utf16Length(b.candidate))
    ensures !Parses(str, parse, i) ==> r == b
    ensures Parses(str, parse, i) && Utf16Length(Candidate(str, i).value) > Utf16Length(b.candidate) ==> r != b
  {
    match Candidate(str, i)
    case None => b
    case Some(c) =>
      match parse(c)
      case None => b
      case Some(v) => if Utf16Length(c) > Utf16Length(b.candidate) then Best(c, Some(v)) else b
  }

  /** The accumulators after the starts `0 .. n-1` have been tried. */
  function BestUpTo<V>(str: string, parse: string -> Option<V>, n: nat): Best<V>
    requires n <= |str|
  {
    if n == 0 then Best("", None)
    else Consider(BestUpTo(str, parse, n - 1), str, parse, n - 1)
  }

  /** What `findJSON` returns. */
  function LargestJSON<V>(str: string, parse: string -> Option<V>): Option<V>
  {
    BestUpTo(str, parse, |str|).parsed
  }

  /** Start `i` is the longest parsed candidate among the starts below `n`,
    * and strictly longer than every parsed candidate of an earlier start. */
  predicate Winner<V>(str: string, parse: string -> Option<V>, n: nat, i: nat)
  {
    i < n && Parses(str, parse, i) &&
    forall k :: 0 <= k < n && Parses(str, parse, k) ==>
      Utf16Length(Candidate(str, k).value) <= Utf16Length(Candidate(str, i).value) &&
      (k < i ==> Utf16Length(Candidate(str, k).value) < Utf16Length(Candidate(str, i).value))
  }

  /** What the accumulators hold after the starts below `n`: nothing when no
    * start parsed, otherwise the candidate of the winning start and its value. */
  ghost predicate LongestEarliest<V>(str: string, parse: string -> Option<V>, n: nat)
    requires n <= |str|
  {
    var b := BestUpTo(str, parse, n);
    (b.parsed.None? <==> forall k :: 0 <= k < n ==> !Parses(str, parse, k)) &&
    (b.parsed.None? ==> b.candidate == "") &&
    (b.parsed.Some? ==>
       exists i :: Winner(str, parse, n, i) && Candidate(str, i) == Some(b.candidate) && parse(b.candidate) == b.parsed)
  }

  /** A start that does not parse keeps the winner. */
  lemma WinnerSurvivesNoParse<V>(str: string, parse: string -> Option<V>, n: nat, w: nat)
    requires n < |str| && Winner(str, parse, n, w) && !Parses(str, parse, n)
    ensures Winner(str, parse, n + 1, w)
  {
  }

  /** A start that parses but is not longer keeps the winner. */
  lemma WinnerSurvivesShorter<V>(str: string, parse: string -> Option<V>, n: nat, w: nat)
    requires n < |str| && Winner(str, parse, n, w) && Parses(str, parse, n)
    requires Utf16Length(Candidate(str, n).value) <= Utf16Length(Candidate(str, w).value)
    ensures Winner(str, parse, n + 1, w)
  {
  }

  /** A start that parses and is strictly longer than every earlier one wins. */
  lemma NewWinner<V>(str: string, parse: string -> Option<V>, n: nat)
    requires n < |str| && Parses(str, parse, n)
    requires forall k :: 0 <= k < n && Parses(str, parse, k) ==> Utf16Length(Candidate(str, k).value) < Utf16Length(Candidate(str, n).value)
    ensures Winner(str, parse, n + 1, n)
  {
  }

  /** The three facts of `LongestEarliest` after the starts below `n`, with
    * the winner `w` named. */
  ghost predicate HeldBy<V>(str: string, parse: string -> Option<V>, n: nat, w: nat)
    requires n <= |str|
  {
    var b := BestUpTo(str, parse, n);
    (b.parsed.None? <==> forall k :: 0 <= k < n ==> !Parses(str, parse, k)) &&
    (b.parsed.None? ==> b.candidate == "") &&
    (b.parsed.Some? ==> Winner(str, parse, n, w) && Candidate(str, w) == Some(b.candidate) && parse(b.candidate) == b.parsed)
  }

  /** One more start keeps the accumulators describing the winner. */
  lemma LongestEarliestStep<V>(str: string, parse: string -> Option<V>, m: nat, w0: nat) returns (w: nat)
    requires 0 < m <= |str| && HeldBy(str, parse, m - 1, w0)
    ensures HeldBy(str, parse, m, w)
  {
    var n := m - 1;
    var b := BestUpTo(str, parse, n);
    assert BestUpTo(str, parse, m) == Consider(b, str, parse, n);
    if !Parses(str, parse, n) {
      assert BestUpTo(str, parse, m) == b;
      w := w0;
      if b.parsed.Some? {
        WinnerSurvivesNoParse(str, parse, n, w0);
      }
    } else if b.parsed.None? || Utf16Length(Candidate(str, n).value) > Utf16Length(b.candidate) {
      assert Utf16Length(Candidate(str, n).value) > Utf16Length(b.candidate);
      assert BestUpTo(str, parse, m) == Best(Candidate(str, n).value, parse(Candidate(str, n).value));
      NewWinner(str, parse, n);
      w := n;
    } else {
      assert BestUpTo(str, parse, m) == b;
      WinnerSurvivesShorter(str, parse, n, w0);
      w := w0;
    }
  }

  /** The winner behind the accumulators after the starts below `n`. */
  lemma {:induction false} BestUpToWinner<V>(str: string, parse: string -> Option<V>, n: nat) returns (w: nat)
    requires n <= |str|
    ensures HeldBy(str, parse, n, w)
  {
    if n == 0 {
      w := 0;
    } else {
      var w0 := BestUpToWinner(str, parse, n - 1);
      w := LongestEarliestStep(str, parse, n, w0);
    }
  }

  /** After the starts below `n`, the accumulators hold nothing exactly when
    * no start parsed, and otherwise the candidate and value of the winner. */
  lemma BestUpToIsLongestEarliest<V>(str: string, parse: string -> Option<V>, n: nat)
    requires n <= |str|
    ensures LongestEarliest(str, parse, n)
  {
    var w := BestUpToWinner(str, parse, n);
    assert HeldBy(str, parse, n, w);
  }

  /** The result is none exactly when no start yields a candidate that
    * parses; otherwise it is the parsed value of the longest such candidate,
    * the one of the smallest start among those of that length. */
  lemma LargestJSONIsLongestEarliest<V>(str: string, parse: string -> Option<V>)
    ensures LargestJSON(str, parse).None? <==> forall k :: 0 <= k < |str| ==> !Parses(str, parse, k)
    ensures LargestJSON(str, parse).Some? ==>
      exists i :: Winner(str, parse, |str|, i) && parse(Candidate(str, i).value) == LargestJSON(str, parse)
  {
    BestUpToIsLongestEarliest(str, parse, |str|);
  }

  /** Cutting a text in three splits its code units. */
  lemma Utf16LengthSplit(s: string, i: nat, j: nat)
    requires i <= j <= |s|
    ensures Utf16Length(s) == Utf16Length(s[..i]) + Utf16Length(s[i..j]) + Utf16Length(s[j..])
  {
    var front, span, back := s[..i], s[i..j], s[j..];
    assert s == (front + span) + back;
    Utf16LengthAppend(front + span, back);
    Utf16LengthAppend(front, span);
  }

  /** A span that starts after the beginning of a text is shorter than it. */
  lemma SpanShorter(str: string, i: nat, j: nat)
    requires 0 < i <= j < |str|
    ensures Utf16Length(str[i..j + 1]) < Utf16Length(str)
  {
    Utf16LengthSplit(str, i, j + 1);
    Utf16LengthBounds(str[..i]);
  }

  /** Of all candidates, the one that is the whole text is the longest. */
  lemma WholeTextWins<V>(str: string, parse: string -> Option<V>)
    requires 0 < |str| && Candidate(str, 0) == Some(str) && parse(str).Some?
    ensures Winner(str, parse, |str|, 0)
  {
    forall k | 0 < k < |str| && Parses(str, parse, k)
      ensures Utf16Length(Candidate(str, k).value) < Utf16Length(str)
    {
      var o := ScanFrom(str, k);
      assert o.Balanced? && Candidate(str, k).value == str[k..o.end + 1];
      SpanShorter(str, k, o.end);
    }
  }

  /** A text that is exactly one balanced value that parses gives that value. */
  lemma WholeTextValue<V>(str: string, parse: string -> Option<V>)
    requires 0 < |str| && IsOpener(str[0]) && ScanFrom(str, 0) == Balanced(|str| - 1)
    requires parse(str).Some?
    ensures LargestJSON(str, parse) == parse(str)
  {
    assert str[0..|str|] == str;
    assert Candidate(str, 0) == Some(str);
    WholeTextWins(str, parse);
    LargestJSONIsLongestEarliest(str, parse);
    var i: nat :| Winner(str, parse, |str|, i) && parse(Candidate(str, i).value) == LargestJSON(str, parse);
    WinnerIsUnique(str, parse, |str|, 0, i);
  }

  /** A text without `{` and `[` holds no JSON value. */
  lemma NoOpenerNoJSON<V>(str: string, parse: string -> Option<V>)
    requires forall k :: 0 <= k < |str| ==> !IsOpener(str[k])
    ensures LargestJSON(str, parse) == None
  {
    BestUpToIsLongestEarliest(str, parse, |str|);
  }

  /** A non-none result is the parse of a balanced span `str[i..j+1]` where
    * `str[i]` opens and the scan from `i` first empties its stack at `j`. */
  lemma ResultIsBalancedSpan<V>(str: string, parse: string -> Option<V>)
    requires LargestJSON(str, parse).Some?
    ensures exists i, j :: 0 <= i < j < |str| && IsOpener(str[i]) && ScanFrom(str, i) == Balanced(j)
                           && parse(str[i..j + 1]) == LargestJSON(str, parse)
  {
    LargestJSONIsLongestEarliest(str, parse);
    var i :| Winner(str, parse, |str|, i) && parse(Candidate(str, i).value) == LargestJSON(str, parse);
    var j := ScanFrom(str, i).end;
    assert ScanFrom(str, i) == Balanced(j) && i < j;
  }

  /** Starts that do not hold `{` or `[` leave the accumulators alone. */
  lemma {:induction false} NoOpenerKeepsBest<V>(str: string, parse: string -> Option<V>, m: nat, n: nat)
    requires m <= n <= |str|
    requires forall k :: m <= k < n ==> !IsOpener(str[k])
    ensures BestUpTo(str, parse, n) == BestUpTo(str, parse, m)
  {
    if m < n {
      NoOpenerKeepsBest(str, parse, m, n - 1);
      BestUpToStep(str, parse, n - 1);
    }
  }

  /** Only one start can be the winner. */
  lemma WinnerIsUnique<V>(str: string, parse: string -> Option<V>, n: nat, i: nat, i': nat)
    requires Winner(str, parse, n, i) && Winner(str, parse, n, i')
    ensures i == i'
  {
  }

  /** The inner loop of `findJSON` for the start `i`: scans forward until
    * the stack of expected closers empties, a closer does not match the top
    * of the stack, or the text ends. */
  method ScanStart(str: string, i: nat) returns (outcome: Outcome)
    requires i < |str| && IsOpener(str[i])
    ensures outcome == ScanFrom(str, i)
  {
    var stack := [CloserOf(str[i])];
    var inString := false;
    var escaped := false;
    var j := i + 1;
    while j < |str|
      invariant i + 1 <= j <= |str|
      invariant |stack| > 0 && AllClosers(stack)
      invariant Scan(str, j, Scanner(stack, inString, escaped)) == ScanFrom(str, i)
    {
      var c := str[j];
      ghost var before := Scanner(stack, inString, escaped);
      if inString {
        if escaped {
          escaped := false;
        } else if c == '\\' {
          escaped := true;
        } else if c == '"' {
          inString := false;
        }
      } else {
        if c == '"' {
          inString := true;
        } else if c == '{' || c == '[' {
          stack := stack + [CloserOf(c)];
        } else if c == '}' || c == ']' {
          // the stack is never empty here, so only a mismatch can abandon the start
          if |stack| == 0 || c != stack[|stack| - 1] {
            assert Advance(before, c) == Mismatch;
            return Mismatched(j);
          }
          stack := stack[..|stack| - 1];
          if |stack| == 0 {
            assert Advance(before, c) == Closed;
            return Balanced(j);
          }
        }
      }
      assert Advance(before, c) == Continue(Scanner(stack, inString, escaped));
      j := j + 1;
    }
    return Unterminated;
  }

  /** The outer loop's step for the start `i`: nothing happens unless `i`
    * holds an opener whose scan balances. */
  lemma BestUpToStep<V>(str: string, parse: string -> Option<V>, i: nat)
    requires i < |str|
    ensures !IsOpener(str[i]) ==> BestUpTo(str, parse, i + 1) == BestUpTo(str, parse, i)
    ensures IsOpener(str[i]) && !ScanFrom(str, i).Balanced? ==> BestUpTo(str, parse, i + 1) == BestUpTo(str, parse, i)
  {
  }

  /** The outer loop's step for a start `i` whose scan balances at `end`:
    * the span `str[i..end+1]` is taken when it parses and is longer, in
    * UTF-16 code units, than the best one so far. */
  lemma BestUpToBalanced<V>(str: string, parse: string -> Option<V>, i: nat, end: nat)
    requires i < |str| && IsOpener(str[i]) && ScanFrom(str, i) == Balanced(end)
    ensures var candidate := str[i..end + 1];
      BestUpTo(str, parse, i + 1) ==
        if parse(candidate).Some? && Utf16Length(candidate) > Utf16Length(BestUpTo(str, parse, i).candidate)
        then Best(candidate, parse(candidate))
        else BestUpTo(str, parse, i)
  {
  }

  /** The body of the outer loop for the start `i`: scans from an opener and
    * offers the balanced candidate, if any, to the two accumulators. */
  method TryStart<V>(str: string, parse: string -> Option<V>, i: nat, largestCandidate: string, largestParsed: Option<V>)
    returns (newCandidate: string, newParsed: Option<V>)
    requires i < |str|
    requires Best(largestCandidate, largestParsed) == BestUpTo(str, parse, i)
    ensures Best(newCandidate, newParsed) == BestUpTo(str, parse, i + 1)
  {
    newCandidate, newParsed := largestCandidate, largestParsed;
    if str[i] != '{' && str[i] != '[' {
      BestUpToStep(str, parse, i);
      return;
    }
    var outcome := ScanStart(str, i);
    if !outcome.Balanced? {
      BestUpToStep(str, parse, i);
      return;
    }
    BestUpToBalanced(str, parse, i, outcome.end);
    // one candidate per start, whether or not it parses
    var candidate := str[i..outcome.end + 1];
    var parsed := parse(candidate);
    if parsed.Some? && Utf16Length(candidate) > Utf16Length(largestCandidate) {
      newCandidate, newParsed := candidate, parsed;
    }
  }

  /** `findJSON`: every start is scanned, and the longest balanced candidate
    * that parses is kept; a longer one must be strictly longer. */
  method FindJSON<V>(str: string, parse: string -> Option<V>) returns (largestParsed: Option<V>)
    ensures largestParsed == LargestJSON(str, parse)
  {
    var largestCandidate := "";
    largestParsed := None;
    for i := 0 to |str|
      invariant Best(largestCandidate, largestParsed) == BestUpTo(str, parse, i)
    {
      largestCandidate, largestParsed := TryStart(str, parse, i, largestCandidate, largestParsed);
    }
  }
}
