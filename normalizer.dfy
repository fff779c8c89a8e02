/**
 * The spoken-punctuation normaliser of the `/process` handler: lower-case the
 * dictated text, pad it with one space on each side, rewrite each spoken
 * punctuation phrase surrounded by spaces into its symbol, then strip.
 */
module Normalizer {
  import opened Text

  /** One entry of the punctuation table: the spoken phrase and its symbol. */
  datatype Rule = Rule(spoken: string, symbol: string)

  const FullStop := Rule("full stop", ".")
  const Period := Rule("period", ".")
  const Comma := Rule("comma", ",")
  const ExclamationMark := Rule("exclamation mark", "!")
  const QuestionMark := Rule("question mark", "?")
  const Colon := Rule("colon", ":")
  const Semicolon := Rule("semicolon", ";")
  const NewLine := Rule("new line", "\n")
  const Newline := Rule("newline", "\n")
  const NewParagraph := Rule("new paragraph", "\n\n")

  /** The table, in the order the rules are applied. */
  const Rules: seq<Rule> := [
    FullStop, Period, Comma, ExclamationMark, QuestionMark,
    Colon, Semicolon, NewLine, Newline, NewParagraph
  ]

  /** What a rule looks for: the phrase with one space on each side. */
  function Pattern(rule: Rule): string {
    " " + rule.spoken + " "
  }

  /** What a rule writes instead: the symbol, keeping the trailing space. */
  function Replacement(rule: Rule): string {
    rule.symbol + " "
  }

  function Pad(s: string): string {
    " " + s + " "
  }

  /** Applies the rules of the table from index `i` on, in order, each one to
      the text the previous ones produced. Every symbol is shorter than its
      phrase, so the text never grows. */
  function ApplyFrom(s: string, i: nat): (r: string)
    requires i <= |Rules|
    ensures |r| <= |s|
    decreases |Rules| - i
  {
    if i == |Rules| then s
    else
      ApplyFrom(ReplaceAll(s, Pattern(Rules[i]), Replacement(Rules[i])), i + 1)
  }

  /** A rule the lower-cased dictation can trigger, and whose replacement is
      shorter than what it replaces. */
  predicate Fits(rule: Rule) {
    rule.spoken != [] && Lower(rule.spoken) == rule.spoken &&
    |Replacement(rule)| < |Pattern(rule)|
  }

  /** Every phrase of the table is non-empty and already lower-case, so it
      can occur in the lower-cased dictation, and every replacement is
      shorter than the padded phrase it stands for. */
  lemma RulesFit()
    ensures forall k :: 0 <= k < |Rules| ==> Fits(Rules[k])
  {
    LowerFixed(FullStop.spoken);
    LowerFixed(Period.spoken);
    LowerFixed(Comma.spoken);
    LowerFixed(ExclamationMark.spoken);
    LowerFixed(QuestionMark.spoken);
    LowerFixed(Colon.spoken);
    LowerFixed(Semicolon.spoken);
    LowerFixed(NewLine.spoken);
    LowerFixed(Newline.spoken);
    LowerFixed(NewParagraph.spoken);
  }

  /** The normalised transcription. Neither of its ends is whitespace, so a
      line break produced at either end is gone. */
  function Normalize(text: string): (r: string)
    ensures r == [] || (!IsSpace(r[0]) && !IsSpace(r[|r| - 1]))
  {
    Strip(ApplyFrom(Pad(Lower(text)), 0))
  }

  /** The normaliser as the handler runs it: one rebinding of the text per
      table entry. */
  method NormalizeText(text: string) returns (r: string)
    ensures r == Normalize(text)
  {
    var t := Pad(Lower(text));
    var i := 0;
    while i < |Rules|
      invariant 0 <= i <= |Rules|
      invariant ApplyFrom(t, i) == ApplyFrom(Pad(Lower(text)), 0)
    {
      t := ReplaceAll(t, Pattern(Rules[i]), Replacement(Rules[i]));
      i := i + 1;
    }
    r := Strip(t);
  }

  /** Rules whose patterns do not occur leave the text unchanged. */
  lemma {:induction false} ApplyFromAbsent(s: string, i: nat)
    requires i <= |Rules|
    requires forall k :: i <= k < |Rules| ==> !Contains(s, Pattern(Rules[k]))
    ensures ApplyFrom(s, i) == s
    decreases |Rules| - i
  {
    if i < |Rules| {
      ReplaceAllAbsent(s, Pattern(Rules[i]), Replacement(Rules[i]));
      ApplyFromAbsent(s, i + 1);
    }
  }

  /** Text with no spoken punctuation comes out lower-cased and stripped. */
  lemma NoPhraseNormalize(text: string)
    requires forall k :: 0 <= k < |Rules| ==> !Contains(Pad(Lower(text)), Pattern(Rules[k]))
    ensures Normalize(text) == Strip(Lower(text))
  {
    ApplyFromAbsent(Pad(Lower(text)), 0);
    StripPadded(Lower(text));
  }

  /** Empty dictation normalises to the empty string. */
  lemma NormalizeEmpty()
    ensures Normalize("") == ""
  {
    forall k | 0 <= k < |Rules| ensures !Contains(Pad(Lower("")), Pattern(Rules[k])) {
      AbsentByLength(Pad(Lower("")), Pattern(Rules[k]));
    }
    NoPhraseNormalize("");
  }

  /** The table entry by entry. */
  lemma RulesTable()
    ensures |Rules| == 10
    ensures Rules[0] == FullStop && Rules[1] == Period && Rules[2] == Comma
    ensures Rules[3] == ExclamationMark && Rules[4] == QuestionMark && Rules[5] == Colon
    ensures Rules[6] == Semicolon && Rules[7] == NewLine && Rules[8] == Newline
    ensures Rules[9] == NewParagraph
  {
  }

  /** Rule `i` is skipped over a text lacking one of its phrase's characters. */
  lemma SkipRule(s: string, i: nat, rule: Rule, c: char)
    requires i < |Rules| && Rules[i] == rule && c in rule.spoken && c !in s
    ensures ApplyFrom(s, i) == ApplyFrom(s, i + 1)
  {
    AbsentByChar(s, Pattern(rule), c);
    ReplaceAllAbsent(s, Pattern(rule), Replacement(rule));
  }

  /** Rules `i` and `i + 1` are both skipped. */
  lemma SkipTwo(s: string, i: nat, c: char, d: char)
    requires i + 1 < |Rules|
    requires c in Rules[i].spoken && c !in s
    requires d in Rules[i + 1].spoken && d !in s
    ensures ApplyFrom(s, i) == ApplyFrom(s, i + 2)
  {
    SkipRule(s, i, Rules[i], c);
    SkipRule(s, i + 1, Rules[i + 1], d);
  }

  /** None of the three line-break phrases occurs in a text without an `n`. */
  lemma NoLineBreakPhrase(t: string)
    requires 'n' !in t
    ensures ApplyFrom(t, 7) == t
  {
    RulesTable();
    SkipRule(t, 7, NewLine, 'n');
    SkipRule(t, 8, Newline, 'n');
    SkipRule(t, 9, NewParagraph, 'n');
  }

  /** Rules 3 to 9 are all skipped over a text missing one character of each
      of rules 3 to 6 and the letter `n`. */
  lemma SkipTail(t: string, c3: char, c4: char, c5: char, c6: char)
    requires c3 in ExclamationMark.spoken && c3 !in t
    requires c4 in QuestionMark.spoken && c4 !in t
    requires c5 in Colon.spoken && c5 !in t
    requires c6 in Semicolon.spoken && c6 !in t
    requires 'n' !in t
    ensures ApplyFrom(t, 3) == t
  {
    RulesTable();
    SkipTwo(t, 3, c3, c4);
    SkipTwo(t, 5, c5, c6);
    NoLineBreakPhrase(t);
  }

  /** The two full-stop rules are skipped over a text missing a character of
      each of their phrases. */
  lemma SkipHead(s: string, c0: char, c1: char)
    requires c0 in FullStop.spoken && c0 !in s
    requires c1 in Period.spoken && c1 !in s
    ensures ApplyFrom(s, 0) == ApplyFrom(s, 2)
  {
    assert Rules[0] == FullStop && Rules[1] == Period;
    SkipTwo(s, 0, c0, c1);
  }

  /** The comma rule fires exactly once: `" comma "` occurs after `a` and
      nowhere earlier, and the text after it holds no further occurrence. */
  lemma CommaFires(s: string, a: string, w: string, b: string)
    requires s == a + Pattern(Comma) + (w + b)
    requires 'c' !in a && ' ' !in w && !Contains(b, Pattern(Comma))
    ensures ApplyFrom(s, 2) == ApplyFrom(a + Replacement(Comma) + (w + b), 3)
  {
    var pat, rep := Pattern(Comma), Replacement(Comma);
    RulesTable();
    assert pat[1] == 'c' && pat[..1] == " ";
    ReplaceAllFirstAt(a, w + b, pat, rep, 1);
    ReplaceAllPastWord(w, b, pat, rep);
    ReplaceAllAbsent(b, pat, rep);
  }

  /** A text in which only the comma rule fires, and only once. */
  lemma CommaOnly(s: string, a: string, w: string, b: string, c5: char, c6: char)
    requires 'f' !in s && 'p' !in s
    requires s == a + Pattern(Comma) + (w + b)
    requires 'c' !in a && ' ' !in w && !Contains(b, Pattern(Comma))
    requires var t := a + Replacement(Comma) + (w + b);
      'e' !in t && 'q' !in t && 'n' !in t &&
      c5 in Colon.spoken && c5 !in t && c6 in Semicolon.spoken && c6 !in t
    ensures ApplyFrom(s, 0) == a + Replacement(Comma) + (w + b)
  {
    SkipHead(s, 'f', 'p');
    CommaFires(s, a, w, b);
    SkipTail(a + Replacement(Comma) + (w + b), 'e', 'q', c5, c6);
  }

  lemma ConsecutiveSource(text: string, s: string)
    requires text == "x comma comma y" && s == " x comma comma y "
    ensures Pad(Lower(text)) == s
  {
  }

  lemma ConsecutiveFacts(s: string)
    requires s == " x comma comma y "
    ensures 'f' !in s && 'p' !in s
    ensures s == " x" + Pattern(Comma) + ("comma" + " y ")
    ensures !Contains(" y ", Pattern(Comma))
  {
    AbsentByLength(" y ", Pattern(Comma));
  }

  lemma ConsecutiveReplaced(t: string)
    requires t == " x, comma y "
    ensures t == " x" + Replacement(Comma) + ("comma" + " y ")
  {
  }

  lemma ConsecutiveLetters(t: string)
    requires t == " x, comma y "
    ensures 'e' !in t && 'q' !in t && 'n' !in t && 'l' !in t && 's' !in t
  {
  }

  lemma ConsecutiveStrip(t: string)
    requires t == " x, comma y "
    ensures Strip(t) == "x, comma y"
  {
    assert t == " " + "x, comma y" + " ";
    StripAround(" ", "x, comma y", " ");
  }

  /** A phrase directly after a replaced one lost its leading space to the
      first replacement and is left as it is. */
  lemma ConsecutivePhrase(text: string)
    requires text == "x comma comma y"
    ensures Normalize(text) == "x, comma y"
  {
    var s, t := " x comma comma y ", " x, comma y ";
    ConsecutiveSource(text, s);
    ConsecutiveFacts(s);
    ConsecutiveReplaced(t);
    ConsecutiveLetters(t);
    CommaOnly(s, " x", "comma", " y ", 'l', 's');
    ConsecutiveStrip(t);
  }

  lemma TwiceSource(text: string, s: string)
    requires text == "comma comma" && s == " comma comma "
    ensures Pad(Lower(text)) == s
  {
  }

  lemma TwiceFacts(s: string)
    requires s == " comma comma "
    ensures 'f' !in s && 'p' !in s
    ensures s == "" + Pattern(Comma) + ("comma" + " ")
    ensures !Contains(" ", Pattern(Comma))
  {
    AbsentByLength(" ", Pattern(Comma));
  }

  lemma TwiceReplaced(t: string)
    requires t == ", comma "
    ensures t == "" + Replacement(Comma) + ("comma" + " ")
  {
  }

  lemma TwiceLetters(t: string)
    requires t == ", comma "
    ensures 'e' !in t && 'q' !in t && 'n' !in t && 'l' !in t && 's' !in t
  {
  }

  lemma TwiceStrip(t: string)
    requires t == ", comma "
    ensures Strip(t) == ", comma"
  {
    assert t == "" + ", comma" + " ";
    StripAround("", ", comma", " ");
  }

  /** Of two adjacent phrases only the first is replaced. */
  lemma CommaTwice(text: string)
    requires text == "comma comma"
    ensures Normalize(text) == ", comma"
  {
    var s, t := " comma comma ", ", comma ";
    TwiceSource(text, s);
    TwiceFacts(s);
    TwiceReplaced(t);
    TwiceLetters(t);
    CommaOnly(s, "", "comma", " ", 'l', 's');
    TwiceStrip(t);
  }

  lemma AgainSource(text: string, s: string)
    requires text == ", comma" && s == " , comma "
    ensures Pad(Lower(text)) == s
  {
  }

  lemma AgainFacts(s: string)
    requires s == " , comma "
    ensures 'f' !in s && 'p' !in s
    ensures s == " ," + Pattern(Comma) + ("" + "")
    ensures !Contains("", Pattern(Comma))
  {
    AbsentByLength("", Pattern(Comma));
  }

  lemma AgainReplaced(t: string)
    requires t == " ,, "
    ensures t == " ," + Replacement(Comma) + ("" + "")
  {
  }

  lemma AgainLetters(t: string)
    requires t == " ,, "
    ensures 'e' !in t && 'q' !in t && 'n' !in t && 'c' !in t
  {
  }

  lemma AgainStrip(t: string)
    requires t == " ,, "
    ensures Strip(t) == ",,"
  {
    assert t == " " + ",," + " ";
    StripAround(" ", ",,", " ");
  }

  /** The phrase that survived the first pass is replaced on the second. */
  lemma CommaTwiceAgain(text: string)
    requires text == ", comma"
    ensures Normalize(text) == ",,"
  {
    var s, t := " , comma ", " ,, ";
    AgainSource(text, s);
    AgainFacts(s);
    AgainReplaced(t);
    AgainLetters(t);
    CommaOnly(s, " ,", "", "", 'c', 'c');
    AgainStrip(t);
  }

  /** The normaliser is not idempotent. */
  lemma NotIdempotent(text: string)
    requires text == "comma comma"
    ensures Normalize(Normalize(text)) != Normalize(text)
  {
    CommaTwice(text);
    CommaTwiceAgain(Normalize(text));
  }
}
