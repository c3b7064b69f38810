/** Worked inputs for the extractor: the parser stays abstract, and each
  * lemma asks of it only that the spans it names parse. */
module JsonExamples {
  import opened Wrappers
  import opened JsonExtract

  /** Brackets inside a string literal do not take part in the matching. */
  lemma BracketsInsideStringIgnored()
    ensures ScanFrom("{\"[}\"}", 0) == Balanced(5)
  {
  }

  /** An escaped quote does not close the string, so the `}` after it is text. */
  lemma EscapedQuoteInsideString()
    ensures ScanFrom("{\"\\\"}\"}", 0) == Balanced(6)
  {
  }

  /** An unterminated string literal leaves the scan unbalanced at the end. */
  lemma UnterminatedString()
    ensures ScanFrom("{\"}", 0) == Unterminated
  {
  }

  /** The first opener of a text, balanced, with a span that parses: after
    * it the accumulators hold that span. */
  lemma FirstStart<V>(str: string, parse: string -> Option<V>, p: nat, e: nat)
    requires p < |str| && IsOpener(str[p]) && forall k :: 0 <= k < p ==> !IsOpener(str[k])
    requires ScanFrom(str, p) == Balanced(e) && parse(str[p..e + 1]).Some?
    ensures BestUpTo(str, parse, p + 1) == Best(str[p..e + 1], parse(str[p..e + 1]))
  {
    NoOpenerKeepsBest(str, parse, 0, p);
    BestUpToBalanced(str, parse, p, e);
  }

  /** The last opener of a text, balanced: the result is decided there. */
  lemma LastStart<V>(str: string, parse: string -> Option<V>, q: nat, f: nat)
    requires q < |str| && IsOpener(str[q]) && forall k :: q < k < |str| ==> !IsOpener(str[k])
    requires ScanFrom(str, q) == Balanced(f)
    ensures var b := str[q..f + 1];
      LargestJSON(str, parse) ==
        if parse(b).Some? && Utf16Length(b) > Utf16Length(BestUpTo(str, parse, q).candidate) then parse(b)
        else BestUpTo(str, parse, q).parsed
  {
    BestUpToBalanced(str, parse, q, f);
    NoOpenerKeepsBest(str, parse, q + 1, |str|);
  }

  /** `str` has openers at `p` and `q` only, and both scans balance, at `e`
    * and `f`. */
  predicate TwoSpans(str: string, p: nat, e: nat, q: nat, f: nat)
  {
    p < q < |str| && IsOpener(str[p]) && IsOpener(str[q]) &&
    (forall k :: 0 <= k < |str| && k != p && k != q ==> !IsOpener(str[k])) &&
    ScanFrom(str, p) == Balanced(e) && ScanFrom(str, q) == Balanced(f)
  }

  /** In such a text, with the span of `p` parsing, the span of `q` wins only
    * when it parses and is strictly longer in UTF-16 code units. */
  lemma TwoStarts<V>(str: string, parse: string -> Option<V>, p: nat, e: nat, q: nat, f: nat)
    requires TwoSpans(str, p, e, q, f) && parse(str[p..e + 1]).Some?
    ensures var a, b := str[p..e + 1], str[q..f + 1];
      LargestJSON(str, parse) == if parse(b).Some? && Utf16Length(b) > Utf16Length(a) then parse(b) else parse(a)
  {
    FirstStart(str, parse, p, e);
    NoOpenerKeepsBest(str, parse, p + 1, q);
    LastStart(str, parse, q, f);
  }

  /** The openers, spans and lengths of `{} [0]`. */
  lemma LongerWinsText()
    ensures TwoSpans("{} [0]", 0, 1, 3, 5)
    ensures "{} [0]"[0..2] == "{}" && "{} [0]"[3..6] == "[0]"
    ensures Utf16Length("{}") == 2 && Utf16Length("[0]") == 3
  {
    assert ScanFrom("{} [0]", 0) == Balanced(1);
    assert ScanFrom("{} [0]", 3) == Balanced(5);
  }

  /** Of two values that both parse, the longer one is returned. */
  lemma LongerWins<V>(parse: string -> Option<V>)
    requires parse("{}").Some? && parse("[0]").Some?
    ensures LargestJSON("{} [0]", parse) == parse("[0]")
  {
    LongerWinsText();
    TwoStarts("{} [0]", parse, 0, 1, 3, 5);
  }

  /** The openers, spans and lengths of `{} []`. */
  lemma TieText()
    ensures TwoSpans("{} []", 0, 1, 3, 4)
    ensures "{} []"[0..2] == "{}" && "{} []"[3..5] == "[]"
    ensures Utf16Length("{}") == 2 && Utf16Length("[]") == 2
  {
    assert ScanFrom("{} []", 0) == Balanced(1);
    assert ScanFrom("{} []", 3) == Balanced(4);
  }

  /** Of two values of the same length that both parse, the first one is returned. */
  lemma TieGoesToFirst<V>(parse: string -> Option<V>)
    requires parse("{}").Some? && parse("[]").Some?
    ensures LargestJSON("{} []", parse) == parse("{}")
  {
    TieText();
    TwoStarts("{} []", parse, 0, 1, 3, 4);
  }

  /** A mismatched closer abandons its starts, and later starts are still tried. */
  lemma MismatchThenLaterValue<V>(parse: string -> Option<V>)
    requires parse("[]").Some?
    ensures LargestJSON("{[} []", parse) == parse("[]")
  {
    var str := "{[} []";
    assert ScanFrom(str, 0) == Mismatched(2);
    assert ScanFrom(str, 1) == Mismatched(2);
    assert ScanFrom(str, 4) == Balanced(5);
    assert str[4..6] == "[]";
    assert BestUpTo(str, parse, 2) == Best("", None);
    NoOpenerKeepsBest(str, parse, 2, 4);
    assert BestUpTo(str, parse, 5) == Best("[]", parse("[]"));
    NoOpenerKeepsBest(str, parse, 5, 6);
  }

  /** The openers and spans of `[0,0] ["😀"]`. */
  lemma AstralText()
    ensures TwoSpans("[0,0] [\"\U{1F600}\"]", 0, 4, 6, 10)
    ensures "[0,0] [\"\U{1F600}\"]"[0..5] == "[0,0]" && "[0,0] [\"\U{1F600}\"]"[6..11] == "[\"\U{1F600}\"]"
  {
    assert ScanFrom("[0,0] [\"\U{1F600}\"]", 0) == Balanced(4);
    assert ScanFrom("[0,0] [\"\U{1F600}\"]", 6) == Balanced(10);
  }

  /** `[0,0]` is five code units; `["😀"]` is six, the emoji being a surrogate pair. */
  lemma AstralLengths()
    ensures Utf16Length("[0,0]") == 5 && Utf16Length("[\"\U{1F600}\"]") == 6
  {
    Utf16LengthBmp("[0,0]");
    assert "[\"\U{1F600}\"]" == "[\"\U{1F600}" + "\"]";
    Utf16LengthAppend("[\"\U{1F600}", "\"]");
    assert Utf16Length("[\"\U{1F600}") == 4;
  }

  /** Length is JavaScript's `.length`: a character outside the Basic
    * Multilingual Plane counts as two code units, so `["😀"]` (five
    * characters, six code units) beats the earlier `[0,0]` (five of each). */
  lemma AstralCharacterCountsTwice<V>(parse: string -> Option<V>)
    requires parse("[0,0]").Some? && parse("[\"\U{1F600}\"]").Some?
    ensures LargestJSON("[0,0] [\"\U{1F600}\"]", parse) == parse("[\"\U{1F600}\"]")
  {
    AstralText();
    AstralLengths();
    TwoStarts("[0,0] [\"\U{1F600}\"]", parse, 0, 4, 6, 10);
  }
}
