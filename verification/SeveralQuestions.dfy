// Messages with several questions: the rules see only the least one.
module SeveralQuestions {
  import opened Wrappers
  import opened Dns
  import opened RequestKey
  import opened Text
  import opened Manipulators
  import opened Pipeline
  import DomainBlock

  /** Messages with the same least question fare alike, whatever else they ask. */
  lemma LeastQuestionDecides(env: Env, m1: Message, m2: Message)
    requires env.Valid() && m1.messageType == m2.messageType == MessageType.Query
    requires m1.queries != [] && m2.queries != [] && RequestOf(m1).value[0] == RequestOf(m2).value[0]
    ensures Examine(env, Some(m1)).Passed? <==> Examine(env, Some(m2)).Passed?
  {
    if env.manipulators.Some? {
      PassingIgnoresMessage(env.lib, env.manipulators.value, m1, m2, RequestOf(m1).value[0]);
    }
  }

  /** With the chain of a configuration a message passes exactly if the lines let its least question pass. */
  lemma PassesIffLeastQuestionPasses(env: Env, config: QueryManipulationConfig, msg: Message)
    requires env.manipulators == Some(ChainOf(env.lib, config))
    requires msg.messageType == MessageType.Query && msg.queries != []
    ensures Examine(env, Some(msg)).Passed? <==>
            LineVerdict(env.lib, config, msg, RequestOf(msg).value[0]) == Ok(PassThrough)
  {
    ChainDecidesByLines(env.lib, config, msg, RequestOf(msg).value[0]);
  }

  // ---------- A blocked name behind a lesser one ----------

  function Asking(questions: seq<Question>): Message {
    Message(7, MessageType.Query, NoError, questions, [], [], [])
  }

  lemma LesserIsLeast(other: Question, lesser: Question)
    requires KeyLe(KeyOf(lesser), KeyOf(other))
    ensures RequestOf(Asking([lesser])).value[0] == KeyOf(lesser)
    ensures RequestOf(Asking([other, lesser])).value[0] == KeyOf(lesser)
  {
    FirstKeyIsLeast(Asking([lesser]));
    assert KeysOf([lesser]) == [KeyOf(lesser)];
    var both := Asking([other, lesser]);
    FirstKeyIsLeast(both);
    assert KeysOf([other, lesser]) == [KeyOf(other), KeyOf(lesser)];
    assert KeyOf(lesser) in KeysOf(both.queries);
    if RequestOf(both).value[0] == KeyOf(other) { KeyLeAntisymmetric(KeyOf(lesser), KeyOf(other)); }
  }

  /** Two questions pass together exactly if the lesser one passes alone: a name that is refused when asked alone, for any
      rules, passes behind any lesser name that is not. */
  lemma BlockedNamePassesBehindLesserOne(env: Env, other: Question, lesser: Question)
    requires env.Valid() && KeyLe(KeyOf(lesser), KeyOf(other))
    ensures Examine(env, Some(Asking([other, lesser]))).Passed? <==> Examine(env, Some(Asking([lesser]))).Passed?
  {
    LesserIsLeast(other, lesser);
    LeastQuestionDecides(env, Asking([other, lesser]), Asking([lesser]));
  }

  // One such pair.

  const BLOCKED := Question("b.com.", TYPE_A, 1)
  const HARMLESS := Question("a.", TYPE_A, 1)
  const BLOCKED_KEY := QueryKey("b.com.", TYPE_A, 1)
  const HARMLESS_KEY := QueryKey("a.", TYPE_A, 1)
  const BLOCK_B_COM := QueryManipulationConfig(None, Some(["b.com"]), 0)

  lemma LetterFirst(c: char, s: string, all: string, first: string, rest: seq<string>)
    requires c != '.' && Labels(s) == [first] + rest && all == [c] + s
    ensures Labels(all) == [[c] + first] + rest
  {
    assert all[1..] == s;
    assert ([first] + rest)[1..] == rest;
  }

  lemma LabelsOfTheRule()
    ensures Labels("b.com") == ["b", "com"] && Labels("a") == ["a"]
  {
    assert ['a'] + "" == "a" && ['m'] + "" == "m" && ['o'] + "m" == "om" && ['c'] + "om" == "com";
    assert ['b'] + ".com" == "b.com" && ['b'] + "" == "b";
    LetterFirst('a', "", "a", "", []);
    LetterFirst('m', "", "m", "", []);
    LetterFirst('o', "m", "om", "m", []);
    LetterFirst('c', "om", "com", "om", []);
    assert ".com"[1..] == "com";
    assert Labels(".com") == [""] + ["com"];
    LetterFirst('b', ".com", "b.com", "", ["com"]);
  }

  lemma RuleBlocksItsName()
    ensures DomainBlock.SomeLineBlocks(["b.com"], ["b", "com"]) && !DomainBlock.SomeLineBlocks(["b.com"], ["a"])
  {
    LabelsOfTheRule();
    assert DomainBlock.StripStar("b.com") == "b.com";
    assert Lower("b.com") == "b.com";
    assert DomainBlock.Kept("b.com");
    assert ["b", "com"][0..] == ["b", "com"];
    assert DomainBlock.LineBlocks("b.com", ["b", "com"]);
    assert "b.com" in ["b.com"];
  }

  lemma RuleNames()
    ensures HasFinalDot("b.com.") && RuleName("b.com.") == "b.com"
    ensures HasFinalDot("a.") && RuleName("a.") == "a"
    ensures Lower("b.com.") == "b.com." && Lower("a.") == "a."
  {
    assert Lower("b.com.") == "b.com.";
    assert "b.com."[..5] == "b.com";
    assert Lower("a.") == "a.";
    assert "a."[..1] == "a";
  }

  lemma BlockedVerdict(lib: Library, msg: Message)
    ensures LineVerdict(lib, BLOCK_B_COM, msg, BLOCKED_KEY) == Ok(SyntheticResponse(BuildResponseNx(msg)))
  {
    RuleNames();
    LabelsOfTheRule();
    RuleBlocksItsName();
  }

  lemma HarmlessVerdict(lib: Library, msg: Message)
    ensures LineVerdict(lib, BLOCK_B_COM, msg, HARMLESS_KEY) == Ok(PassThrough)
  {
    RuleNames();
    LabelsOfTheRule();
    RuleBlocksItsName();
  }

  lemma ExampleKeys()
    ensures KeyOf(BLOCKED) == BLOCKED_KEY && KeyOf(HARMLESS) == HARMLESS_KEY
    ensures KeyLe(HARMLESS_KEY, BLOCKED_KEY) && KeyLe(BLOCKED_KEY, BLOCKED_KEY)
  {
    RuleNames();
    KeyLeTotal(BLOCKED_KEY, BLOCKED_KEY);
  }

  /** "b.com." is refused alone and passes behind "a.". */
  lemma BlockedNameExample(env: Env)
    requires env.manipulators == Some(ChainOf(env.lib, BLOCK_B_COM))
    ensures Examine(env, Some(Asking([BLOCKED]))).Refused?
    ensures Examine(env, Some(Asking([BLOCKED, HARMLESS]))).Passed?
  {
    ExampleKeys();
    LesserIsLeast(BLOCKED, BLOCKED);
    LesserIsLeast(BLOCKED, HARMLESS);
    BlockedVerdict(env.lib, Asking([BLOCKED]));
    HarmlessVerdict(env.lib, Asking([BLOCKED, HARMLESS]));
    PassesIffLeastQuestionPasses(env, BLOCK_B_COM, Asking([BLOCKED]));
    PassesIffLeastQuestionPasses(env, BLOCK_B_COM, Asking([BLOCKED, HARMLESS]));
  }
}
