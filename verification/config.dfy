/** The static configuration of the earlier revision (Config.swift). Its
    captions fall back to test values only; this revision has no repository
    fallback. The random test hash is a parameter. */
module Config {
  import opened Optional

  /** Message used in test mode when none was given. */
  const TestMessage: string := "this is a test message i didnt really commit something"

  /** The mutable static fields of `Config`, as one value. */
  datatype ConfigState = ConfigState(
    delay: real,
    testMode: bool,
    debugMode: bool,
    parsedMessage: Option<string>,
    parsedSha: Option<string>)

  /** The values the fields start with. */
  function Defaults(): (c: ConfigState)
    ensures c.delay == 0.75 && !c.testMode && !c.debugMode
    ensures c.parsedMessage.None? && c.parsedSha.None?
  {
    ConfigState(0.75, false, false, None, None)
  }

  /** The bottom caption: the test message exactly when in test mode with no
      parsed message, otherwise whatever was parsed. */
  function FinalMessage(c: ConfigState): (r: Option<string>)
    ensures c.parsedMessage.Some? ==> r == c.parsedMessage
    ensures r == Some(TestMessage) && c.parsedMessage != Some(TestMessage) <==> c.testMode && c.parsedMessage.None?
    ensures !c.testMode ==> r == c.parsedMessage
    ensures r.None? <==> !c.testMode && c.parsedMessage.None?
  {
    if c.testMode && c.parsedMessage.None? then Some(TestMessage) else c.parsedMessage
  }

  /** The top caption, by the same rule with the random test hash. */
  function FinalSha(c: ConfigState, testSha: string): (r: Option<string>)
    ensures c.parsedSha.Some? ==> r == c.parsedSha
    ensures c.testMode && c.parsedSha.None? ==> r == Some(testSha)
    ensures !c.testMode ==> r == c.parsedSha
    ensures r.None? <==> !c.testMode && c.parsedSha.None?
  {
    if c.testMode && c.parsedSha.None? then Some(testSha) else c.parsedSha
  }

  /** Both captions are a two-step precedence chain: parsed, then the test
      value in test mode. */
  lemma CaptionsArePrecedenceChains(c: ConfigState, testSha: string)
    ensures FinalMessage(c) == FirstSome([c.parsedMessage, if c.testMode then Some(TestMessage) else None])
    ensures FinalSha(c, testSha) == FirstSome([c.parsedSha, if c.testMode then Some(testSha) else None])
  {
    ChainOfTwo(c.parsedMessage, if c.testMode then Some(TestMessage) else None);
    ChainOfTwo(c.parsedSha, if c.testMode then Some(testSha) else None);
  }

  lemma ChainOfTwo<T>(a: Option<T>, b: Option<T>)
    ensures FirstSome([a, b]) == if a.Some? then a else b
  {
    assert [b][1..] == [];
    assert FirstSome([b]) == b;
    assert [a, b][1..] == [b];
  }

  /** With the default settings there is no caption at all. */
  lemma DefaultsHaveNoCaptions(testSha: string)
    ensures FinalMessage(Defaults()).None? && FinalSha(Defaults(), testSha).None?
  {
  }
}
