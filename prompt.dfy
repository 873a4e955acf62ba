/**
  The prompt `ask_supermom` sends upstream: the instruction template
  `<s>[INST] {system}\n\nUser: {question} [/INST]>`, with both strings
  inserted verbatim (no escaping).
 */
module Prompt {
  import opened Wrappers

  const Header: string := "<s>[INST] "
  const Separator: string := "\n\nUser: "
  const Footer: string := " [/INST]>"

  /** The f-string of `ask_supermom`: header, system message, separator,
      question, footer, each appearing at its own offset. */
  function BuildPrompt(system: string, question: string): (p: string)
    ensures |p| == |Header| + |system| + |Separator| + |question| + |Footer|
    ensures Header <= p
    ensures p[|Header|..|Header| + |system|] == system
    ensures p[|Header| + |system|..|Header| + |system| + |Separator|] == Separator
    ensures p[|Header| + |system| + |Separator|..|p| - |Footer|] == question
    ensures p[|p| - |Footer|..] == Footer
  {
    var p := Header + system + Separator + question + Footer;
    assert p == (Header + system + Separator) + question + Footer;
    p
  }

  /** Reads the question back out of a prompt built with the system message
      `system`, or `None` if `p` does not have that shape. */
  function ExtractQuestion(system: string, p: string): (q: Option<string>)
    ensures q.Some? ==> BuildPrompt(system, q.value) == p
  {
    var head := Header + system + Separator;
    if |p| >= |head| + |Footer| && head <= p && p[|p| - |Footer|..] == Footer then
      var q := p[|head|..|p| - |Footer|];
      assert p == head + q + Footer by {
        assert p == p[..|head|] + p[|head|..|p| - |Footer|] + p[|p| - |Footer|..];
      }
      Some(q)
    else None
  }

  /** The question is recovered verbatim from the prompt it was put in. */
  lemma ExtractBuildRoundTrip(system: string, question: string)
    ensures ExtractQuestion(system, BuildPrompt(system, question)) == Some(question)
  {
    var head := Header + system + Separator;
    var p := BuildPrompt(system, question);
    assert p == head + question + Footer;
    assert head <= p;
    assert p[|head|..|p| - |Footer|] == question;
  }

  /** Different questions give different prompts. */
  lemma BuildPromptInjective(system: string, q1: string, q2: string)
    requires BuildPrompt(system, q1) == BuildPrompt(system, q2)
    ensures q1 == q2
  {
    ExtractBuildRoundTrip(system, q1);
    ExtractBuildRoundTrip(system, q2);
  }
}
