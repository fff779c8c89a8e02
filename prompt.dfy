/**
 * The two prompts the `/process` handler sends to the language model: the
 * fixed system prompt, and the user prompt that wraps the normalised
 * dictation and, when a stored template applies, the template instruction.
 */
module Prompt {
  import opened Wrappers
  import opened Text

  /** Introduces the template body inside the user prompt. */
  const TemplateHeader := "\nUse the following template structure:\n"

  /** The body of the requested template, or `""`: a missing or empty name is
      not looked up, and a name that is not stored finds nothing. */
  function TemplateContent(templates: map<string, string>, name: Option<string>): (r: string)
    ensures r != "" ==> name.Some? && name.value != "" && name.value in templates && r == templates[name.value]
  {
    if name.Some? && name.value != "" && name.value in templates then templates[name.value] else ""
  }

  /** The text appended to the dictation: the header and the body, or nothing
      when there is no body. */
  function TemplateInstruction(templates: map<string, string>, name: Option<string>): (r: string)
    ensures r == "" || r == TemplateHeader + TemplateContent(templates, name)
  {
    var content := TemplateContent(templates, name);
    if content != "" then TemplateHeader + content else ""
  }

  /** The instruction is empty in exactly three cases: no name (or an empty
      one), a name that is not stored, or a stored template with an empty
      body. Otherwise it is the header followed by the stored body. */
  lemma InstructionCases(templates: map<string, string>, name: Option<string>)
    ensures TemplateInstruction(templates, name) == "" <==>
      (name.None? || name.value == "" || name.value !in templates || templates[name.value] == "")
    ensures TemplateInstruction(templates, name) != "" ==>
      TemplateInstruction(templates, name) == TemplateHeader + templates[name.value]
  {
    var r := TemplateInstruction(templates, name);
    if r != "" {
      assert |r| >= |TemplateHeader|;
    }
  }

  /** A name that is not in the store gives the same instruction as no name. */
  lemma UnknownTemplateIgnored(templates: map<string, string>, name: string)
    requires name !in templates
    ensures TemplateInstruction(templates, Some(name)) == TemplateInstruction(templates, None) == ""
  {
  }

  const UserIntro := "Here is the transcribed speech to convert into a professional radiology report:\n\n"
  const UserOutro := "\n\nPlease write in a natural, flowing style as a radiologist would dictate. Avoid breaking the report into many sections."

  /** The user prompt: the introduction, the normalised dictation directly
      followed by the template instruction, and the closing request. */
  function UserPrompt(text: string, instruction: string): (r: string)
    ensures |r| == |UserIntro| + |text| + |instruction| + |UserOutro|
  {
    UserIntro + text + instruction + UserOutro
  }

  /** The dictation and the instruction sit between the fixed introduction and
      the fixed closing, adjacent and unchanged, so the prompt gives them back. */
  lemma UserPromptParts(text: string, instruction: string)
    ensures var r := UserPrompt(text, instruction);
      r[..|UserIntro|] == UserIntro &&
      r[|UserIntro|..|r| - |UserOutro|] == text + instruction &&
      r[|r| - |UserOutro|..] == UserOutro
  {
    var r := UserPrompt(text, instruction);
    assert r == UserIntro + (text + instruction) + UserOutro;
  }

  /** Two prompts are equal exactly when their dictation-plus-instruction
      middles are. */
  lemma UserPromptInjective(t1: string, i1: string, t2: string, i2: string)
    ensures UserPrompt(t1, i1) == UserPrompt(t2, i2) <==> t1 + i1 == t2 + i2
  {
    UserPromptFramed(t1, i1);
    UserPromptFramed(t2, i2);
    FramedInjective(UserIntro, t1 + i1, t2 + i2, UserOutro);
  }

  lemma UserPromptFramed(text: string, instruction: string)
    ensures UserPrompt(text, instruction) == UserIntro + (text + instruction) + UserOutro
  {
  }

  /** Text framed by the same prefix and suffix determines the framed part. */
  lemma FramedInjective(p: string, m1: string, m2: string, q: string)
    ensures p + m1 + q == p + m2 + q <==> m1 == m2
  {
    if p + m1 + q == p + m2 + q {
      assert m1 == (p + m1 + q)[|p|..|p| + |m1|];
      assert m2 == (p + m2 + q)[|p|..|p| + |m2|];
    }
  }

  /** The opening sentence of the system prompt. */
  const Persona := "You are an expert radiologist writing a radiology report. Convert transcribed speech into a professional report."

  /** The guidelines of the system prompt, in order. */
  const Guidelines: seq<string> := [
    "Remove speech artifacts (um, uh, pauses, repetitions)",
    "Write in clear, natural prose paragraphs",
    "Use standard medical terminology",
    "Be concise and clear",
    "If something is not mentioned, state it as normal",
    "Use precise measurements if provided",
    "Highlight any critical findings",
    "End with a brief impression",
    "Start directly with the findings"
  ]

  /** The prefix of each line of the guideline list, indented as in the
      handler's source. */
  const BulletPrefix := "\n        - "

  /** The guideline list: one indented bullet line per guideline. */
  function Bullets(items: seq<string>): string {
    if items == [] then "" else BulletPrefix + items[0] + Bullets(items[1..])
  }

  /** The system prompt sent with every request: it lists each of the nine
      guidelines as a bullet line. */
  function SystemPrompt(): (r: string)
    ensures forall k :: 0 <= k < |Guidelines| ==> Contains(r, BulletPrefix + Guidelines[k])
  {
    var head := Persona + "\n        Follow these guidelines:";
    ListedAfter(head, Guidelines);
    head + Bullets(Guidelines)
  }

  /** Every item of a list appears as its own bullet line. */
  lemma {:induction false} BulletListed(items: seq<string>, k: nat)
    requires k < |items|
    ensures Contains(Bullets(items), BulletPrefix + items[k])
    decreases |items|
  {
    if k == 0 {
      assert Bullets(items) == "" + (BulletPrefix + items[0]) + Bullets(items[1..]);
      ContainsInfix("", BulletPrefix + items[0], Bullets(items[1..]));
    } else {
      BulletListed(items[1..], k - 1);
      ContainsAfter(BulletPrefix + items[0], Bullets(items[1..]), BulletPrefix + items[k]);
    }
  }

  /** Every item of a list stays a bullet line behind any heading. */
  lemma ListedAfter(head: string, items: seq<string>)
    ensures forall k :: 0 <= k < |items| ==> Contains(head + Bullets(items), BulletPrefix + items[k])
  {
    forall k | 0 <= k < |items| ensures Contains(head + Bullets(items), BulletPrefix + items[k]) {
      BulletListed(items, k);
      ContainsAfter(head, Bullets(items), BulletPrefix + items[k]);
    }
  }
}
