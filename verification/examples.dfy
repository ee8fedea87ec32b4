/** The examples in the documentation comments of src/lib.rs and the
    further concrete scenarios, evaluated on the model. The tokenizer
    example's text is written as the concatenation of its runs, cut at the
    token boundaries (the pieces read in order are the original text); the
    sentence example's text is its lines joined by line breaks, and each
    expected sentence is the string literal it is. */
module Examples {
  import opened Io
  import opened Text
  import opened Tokens
  import opened Sentences
  import Splitter

  /** The separators of the documentation examples. */
  const Whitespace: seq<char> := [' ', '\n', '\t', '\r']

  /** The terminators of the documentation example, with no quote strings. */
  const DocConfig: Config := Config([".", "!", "?"], [])

  lemma Gaps()
    ensures OnlySeparators(Whitespace, " ") && OnlySeparators(Whitespace, "\n")
    ensures OnlySeparators(Whitespace, "\t") && OnlySeparators(Whitespace, " \n  ")
    ensures OnlySeparators(Whitespace, "    ")
  {
  }

  /** A token that does not end with a terminator continues the sentence. */
  lemma Continues(s: string)
    requires s != [] && s[|s| - 1] !in ".!?"
    ensures Decide(DocConfig, None, s) == Continue(None)
  {
    assert !EndsWith(s, "..") by {
      if |s| >= 2 {
        assert s[|s| - 2..][1] == s[|s| - 1];
      }
    }
    assert s[|s| - 1..] == [s[|s| - 1]];
    forall i | 0 <= i < |DocConfig.terminators|
      ensures !EndsWith(s, DocConfig.terminators[i])
    {
      assert |DocConfig.terminators[i]| == 1;
    }
  }

  /** A token ending in ".." continues the sentence. */
  lemma Trails(s: string)
    requires EndsWith(s, "..")
    ensures Decide(DocConfig, None, s) == Continue(None)
  {
  }

  /** A token ending with a terminator, but not in "..", ends the sentence. */
  lemma Closes(s: string)
    requires s != [] && s[|s| - 1] in ".!?" && !EndsWith(s, "..")
    ensures Decide(DocConfig, None, s) == Close
  {
    var t := [s[|s| - 1]];
    assert EndsWith(s, t);
    if t == "." {
      assert EndsWith(s, DocConfig.terminators[0]);
    } else if t == "!" {
      assert EndsWith(s, DocConfig.terminators[1]);
    } else {
      assert EndsWith(s, DocConfig.terminators[2]);
    }
  }

  /** The words of this text hold no separator. */
  lemma TokenizerDocClean()
    ensures NoSeparator(Whitespace, "Hello")
    ensures NoSeparator(Whitespace, "world")
    ensures NoSeparator(Whitespace, "How")
    ensures NoSeparator(Whitespace, "do")
    ensures NoSeparator(Whitespace, "you")
    ensures NoSeparator(Whitespace, "-Finely")
    ensures NoSeparator(Whitespace, "I")
    ensures NoSeparator(Whitespace, "hope")
  {
  }

  /** Each word alone is its own single token. */
  lemma TokenizerDocWords()
    ensures NonEmpty(SplitAt(Whitespace, "Hello")) == ["Hello"]
    ensures NonEmpty(SplitAt(Whitespace, "world")) == ["world"]
    ensures NonEmpty(SplitAt(Whitespace, "How")) == ["How"]
    ensures NonEmpty(SplitAt(Whitespace, "do")) == ["do"]
    ensures NonEmpty(SplitAt(Whitespace, "you")) == ["you"]
    ensures NonEmpty(SplitAt(Whitespace, "-Finely")) == ["-Finely"]
    ensures NonEmpty(SplitAt(Whitespace, "I")) == ["I"]
    ensures NonEmpty(SplitAt(Whitespace, "hope")) == ["hope"]
  {
    TokenizerDocClean();
    SplitAtWord(Whitespace, "Hello");
    SplitAtWord(Whitespace, "world");
    SplitAtWord(Whitespace, "How");
    SplitAtWord(Whitespace, "do");
    SplitAtWord(Whitespace, "you");
    SplitAtWord(Whitespace, "-Finely");
    SplitAtWord(Whitespace, "I");
    SplitAtWord(Whitespace, "hope");
  }

  lemma TokenizerDocList()
    ensures ["Hello"] + ["world"] + ["How"] + ["do"] + ["you"] + ["do"] + ["-Finely"] + ["I"] + ["hope"]
            == ["Hello", "world", "How", "do", "you", "do", "-Finely", "I", "hope"]
  {
  }

  /** The crate-level example of src/lib.rs: the tokenizer drops every run of
      white space, leading and trailing runs included, and yields the nine
      words, then `None`. */
  lemma TokenizerDocExample()
    ensures All(New(FromText("    " + "Hello" + " " + "world" + " \n  " + "How" + " " + "do" + " " + "you" + " " + "do" + "\t" + "-Finely" + " " + "I" + " " + "hope"), Whitespace))
            == Stream(["Hello", "world", "How", "do", "you", "do", "-Finely", "I", "hope"], None)
  {
    TokenizerDocWords();
    Gaps();
    LeadingGap(Whitespace, "    ", "Hello");
    var s1, t1 := "    " + "Hello", ["Hello"];
    GapSplit(Whitespace, s1, " ", "world");
    var s2, t2 := s1 + " " + "world", t1 + ["world"];
    GapSplit(Whitespace, s2, " \n  ", "How");
    var s3, t3 := s2 + " \n  " + "How", t2 + ["How"];
    GapSplit(Whitespace, s3, " ", "do");
    var s4, t4 := s3 + " " + "do", t3 + ["do"];
    GapSplit(Whitespace, s4, " ", "you");
    var s5, t5 := s4 + " " + "you", t4 + ["you"];
    GapSplit(Whitespace, s5, " ", "do");
    var s6, t6 := s5 + " " + "do", t5 + ["do"];
    GapSplit(Whitespace, s6, "\t", "-Finely");
    var s7, t7 := s6 + "\t" + "-Finely", t6 + ["-Finely"];
    GapSplit(Whitespace, s7, " ", "I");
    var s8, t8 := s7 + " " + "I", t7 + ["I"];
    GapSplit(Whitespace, s8, " ", "hope");
    var s9, t9 := s8 + " " + "hope", t8 + ["hope"];
    TokenizerDocList();
    AllIsSplit(Whitespace, s9);
  }

  /** The text of the sentence-splitting example of src/lib.rs, line by line. */
  function DocLine1(): string { "I walked down the road." }
  function DocLine2(): string { "\"What did he say\", she asked me." }
  function DocLine3(): string { "\"Nothing\", I replied, and continued walking..." }
  function DocLine4(): string { "it wasn't any of my business." }
  function DocLine5(): string { "Or was it?" }
  function SentenceDocText(): string
  {
    DocLine1() + "\n" + DocLine2() + "\n" + DocLine3() + "\n" + DocLine4() + "\n" + DocLine5()
  }

  /** The tokens of each line. */
  function DocTokens1(): seq<string> { ["I", "walked", "down", "the", "road."] }
  function DocTokens2(): seq<string> { ["\"What", "did", "he", "say\",", "she", "asked", "me."] }
  function DocTokens3(): seq<string> { ["\"Nothing\",", "I", "replied,", "and", "continued", "walking..."] }
  function DocTokens4(): seq<string> { ["it", "wasn't", "any", "of", "my", "business."] }
  function DocTokens5(): seq<string> { ["Or", "was", "it?"] }

  /** A line that is its words joined by single spaces has those words as its tokens. */
  lemma LineTokens(line: string, ws: seq<string>)
    requires Unwords(ws) == line && Words(Whitespace, ws)
    ensures NonEmpty(SplitAt(Whitespace, line)) == ws
  {
    UnwordsSplit(Whitespace, ws);
  }

  lemma DocLine1Words()
    ensures Words(Whitespace, DocTokens1())
  {
  }

  /** The tokens of line 1. */
  lemma DocLine1Tokens()
    ensures NonEmpty(SplitAt(Whitespace, DocLine1())) == DocTokens1()
  {
    DocLine1Words();
    DocLine1Text();
    LineTokens(DocLine1(), DocTokens1());
  }

  lemma DocLine2Words()
    ensures Words(Whitespace, DocTokens2())
  {
  }

  /** The tokens of line 2. */
  lemma DocLine2Tokens()
    ensures NonEmpty(SplitAt(Whitespace, DocLine2())) == DocTokens2()
  {
    DocLine2Words();
    DocLine2Text();
    LineTokens(DocLine2(), DocTokens2());
  }

  lemma DocLine3Words()
    ensures Words(Whitespace, DocTokens3())
  {
  }

  /** The tokens of line 3. */
  lemma DocLine3Tokens()
    ensures NonEmpty(SplitAt(Whitespace, DocLine3())) == DocTokens3()
  {
    DocLine3Words();
    DocLine3Text();
    LineTokens(DocLine3(), DocTokens3());
  }

  lemma DocLine4Words()
    ensures Words(Whitespace, DocTokens4())
  {
  }

  /** The tokens of line 4. */
  lemma DocLine4Tokens()
    ensures NonEmpty(SplitAt(Whitespace, DocLine4())) == DocTokens4()
  {
    DocLine4Words();
    DocLine4Text();
    LineTokens(DocLine4(), DocTokens4());
  }

  lemma DocLine5Words()
    ensures Words(Whitespace, DocTokens5())
  {
  }

  /** The tokens of line 5. */
  lemma DocLine5Tokens()
    ensures NonEmpty(SplitAt(Whitespace, DocLine5())) == DocTokens5()
  {
    DocLine5Words();
    DocLine5Text();
    LineTokens(DocLine5(), DocTokens5());
  }

  lemma SentenceDocTokens()
    ensures NonEmpty(SplitAt(Whitespace, SentenceDocText()))
            == DocTokens1() + DocTokens2() + DocTokens3() + DocTokens4() + DocTokens5()
  {
    Gaps();
    DocLine1Tokens();
    DocLine2Tokens();
    DocLine3Tokens();
    DocLine4Tokens();
    DocLine5Tokens();
    GapSplit(Whitespace, DocLine1(), "\n", DocLine2());
    GapSplit(Whitespace, DocLine1() + "\n" + DocLine2(), "\n", DocLine3());
    GapSplit(Whitespace, DocLine1() + "\n" + DocLine2() + "\n" + DocLine3(), "\n", DocLine4());
    GapSplit(Whitespace, DocLine1() + "\n" + DocLine2() + "\n" + DocLine3() + "\n" + DocLine4(), "\n", DocLine5());
  }

  /** The rule each word of line 1 meets, outside any quote. */
  lemma DocLine1Decisions()
    ensures Decide(DocConfig, None, "I") == Continue(None)
    ensures Decide(DocConfig, None, "walked") == Continue(None)
    ensures Decide(DocConfig, None, "down") == Continue(None)
    ensures Decide(DocConfig, None, "the") == Continue(None)
    ensures Decide(DocConfig, None, "road.") == Close
  {
    Continues("I");
    Continues("walked");
    Continues("down");
    Continues("the");
    Closes("road.");
  }

  lemma DocSentence1List()
    ensures ["I"] + (["walked"] + (["down"] + (["the"] + ["road."]))) == DocTokens1()
  {
  }

  /** Sentence 1 of the example: no rule fires before its last word. */
  lemma DocSentence1Rules()
    ensures OneSentence(DocConfig, DocTokens1())
  {
    DocLine1Decisions();
    var u4 := ["road."];
    OneSentenceLast(DocConfig, "road.");
    OneSentenceCons(DocConfig, "the", u4);
    var u3 := ["the"] + u4;
    OneSentenceCons(DocConfig, "down", u3);
    var u2 := ["down"] + u3;
    OneSentenceCons(DocConfig, "walked", u2);
    var u1 := ["walked"] + u2;
    OneSentenceCons(DocConfig, "I", u1);
    DocSentence1List();
  }

  /** The rule each word of line 2 meets, outside any quote. */
  lemma DocLine2Decisions()
    ensures Decide(DocConfig, None, "\"What") == Continue(None)
    ensures Decide(DocConfig, None, "did") == Continue(None)
    ensures Decide(DocConfig, None, "he") == Continue(None)
    ensures Decide(DocConfig, None, "say\",") == Continue(None)
    ensures Decide(DocConfig, None, "she") == Continue(None)
    ensures Decide(DocConfig, None, "asked") == Continue(None)
    ensures Decide(DocConfig, None, "me.") == Close
  {
    Continues("\"What");
    Continues("did");
    Continues("he");
    Continues("say\",");
    Continues("she");
    Continues("asked");
    Closes("me.");
  }

  lemma DocSentence2List()
    ensures ["\"What"] + (["did"] + (["he"] + (["say\","] + (["she"] + (["asked"] + ["me."]))))) == DocTokens2()
  {
  }

  /** Sentence 2 of the example: no rule fires before its last word. */
  lemma DocSentence2Rules()
    ensures OneSentence(DocConfig, DocTokens2())
  {
    DocLine2Decisions();
    var u6 := ["me."];
    OneSentenceLast(DocConfig, "me.");
    OneSentenceCons(DocConfig, "asked", u6);
    var u5 := ["asked"] + u6;
    OneSentenceCons(DocConfig, "she", u5);
    var u4 := ["she"] + u5;
    OneSentenceCons(DocConfig, "say\",", u4);
    var u3 := ["say\","] + u4;
    OneSentenceCons(DocConfig, "he", u3);
    var u2 := ["he"] + u3;
    OneSentenceCons(DocConfig, "did", u2);
    var u1 := ["did"] + u2;
    OneSentenceCons(DocConfig, "\"What", u1);
    DocSentence2List();
  }

  /** The rule each word of line 3 meets, outside any quote. */
  lemma DocLine3Decisions()
    ensures Decide(DocConfig, None, "\"Nothing\",") == Continue(None)
    ensures Decide(DocConfig, None, "I") == Continue(None)
    ensures Decide(DocConfig, None, "replied,") == Continue(None)
    ensures Decide(DocConfig, None, "and") == Continue(None)
    ensures Decide(DocConfig, None, "continued") == Continue(None)
    ensures Decide(DocConfig, None, "walking...") == Continue(None)
  {
    Continues("\"Nothing\",");
    Continues("I");
    Continues("replied,");
    Continues("and");
    Continues("continued");
    Trails("walking...");
  }

  /** The rule each word of line 4 meets, outside any quote. */
  lemma DocLine4Decisions()
    ensures Decide(DocConfig, None, "it") == Continue(None)
    ensures Decide(DocConfig, None, "wasn't") == Continue(None)
    ensures Decide(DocConfig, None, "any") == Continue(None)
    ensures Decide(DocConfig, None, "of") == Continue(None)
    ensures Decide(DocConfig, None, "my") == Continue(None)
    ensures Decide(DocConfig, None, "business.") == Close
  {
    Continues("it");
    Continues("wasn't");
    Continues("any");
    Continues("of");
    Continues("my");
    Closes("business.");
  }

  lemma DocSentence3List()
    ensures ["\"Nothing\","] + (["I"] + (["replied,"] + (["and"] + (["continued"] + (["walking..."] + (["it"] + (["wasn't"] + (["any"] + (["of"] + (["my"] + ["business."])))))))))) == DocTokens3() + DocTokens4()
  {
  }

  /** Sentence 3 of the example: no rule fires before its last word. */
  lemma DocSentence3Rules()
    ensures OneSentence(DocConfig, DocTokens3() + DocTokens4())
  {
    DocLine3Decisions();
    DocLine4Decisions();
    var u11 := ["business."];
    OneSentenceLast(DocConfig, "business.");
    OneSentenceCons(DocConfig, "my", u11);
    var u10 := ["my"] + u11;
    OneSentenceCons(DocConfig, "of", u10);
    var u9 := ["of"] + u10;
    OneSentenceCons(DocConfig, "any", u9);
    var u8 := ["any"] + u9;
    OneSentenceCons(DocConfig, "wasn't", u8);
    var u7 := ["wasn't"] + u8;
    OneSentenceCons(DocConfig, "it", u7);
    var u6 := ["it"] + u7;
    OneSentenceCons(DocConfig, "walking...", u6);
    var u5 := ["walking..."] + u6;
    OneSentenceCons(DocConfig, "continued", u5);
    var u4 := ["continued"] + u5;
    OneSentenceCons(DocConfig, "and", u4);
    var u3 := ["and"] + u4;
    OneSentenceCons(DocConfig, "replied,", u3);
    var u2 := ["replied,"] + u3;
    OneSentenceCons(DocConfig, "I", u2);
    var u1 := ["I"] + u2;
    OneSentenceCons(DocConfig, "\"Nothing\",", u1);
    DocSentence3List();
  }

  /** The rule each word of line 5 meets, outside any quote. */
  lemma DocLine5Decisions()
    ensures Decide(DocConfig, None, "Or") == Continue(None)
    ensures Decide(DocConfig, None, "was") == Continue(None)
    ensures Decide(DocConfig, None, "it?") == Close
  {
    Continues("Or");
    Continues("was");
    Closes("it?");
  }

  lemma DocSentence4List()
    ensures ["Or"] + (["was"] + ["it?"]) == DocTokens5()
  {
  }

  /** Sentence 4 of the example: no rule fires before its last word. */
  lemma DocSentence4Rules()
    ensures OneSentence(DocConfig, DocTokens5())
  {
    DocLine5Decisions();
    var u2 := ["it?"];
    OneSentenceLast(DocConfig, "it?");
    OneSentenceCons(DocConfig, "was", u2);
    var u1 := ["was"] + u2;
    OneSentenceCons(DocConfig, "Or", u1);
    DocSentence4List();
  }

  lemma Listed<T>(w: T, x: T, y: T, z: T)
    ensures [w] + ([x] + ([y] + [z])) == [w, x, y, z]
  {
  }

  lemma Regroup(a: seq<string>, b: seq<string>, c: seq<string>, d: seq<string>, e: seq<string>)
    ensures a + b + c + d + e == a + (b + ((c + d) + e))
  {
  }

  /** Four sentences in a row, the third written as two lists. */
  lemma CutFour(cfg: Config, a: seq<string>, b: seq<string>, c: seq<string>, d: seq<string>, e: seq<string>)
    requires OneSentence(cfg, a) && OneSentence(cfg, b) && OneSentence(cfg, c + d) && OneSentence(cfg, e)
    ensures Cut(cfg, a + b + c + d + e) == [Unwords(a), Unwords(b), Unwords(c + d), Unwords(e)]
  {
    var cd := c + d;
    CutWords(cfg, e, []);
    assert e + [] == e;
    assert Cut(cfg, []) == [];
    var r4 := [Unwords(e)];
    assert Cut(cfg, e) == r4;
    CutWords(cfg, cd, e);
    var r3 := [Unwords(cd)] + r4;
    assert Cut(cfg, cd + e) == r3;
    CutWords(cfg, b, cd + e);
    var r2 := [Unwords(b)] + r3;
    assert Cut(cfg, b + (cd + e)) == r2;
    CutWords(cfg, a, b + (cd + e));
    assert Cut(cfg, a + (b + (cd + e))) == [Unwords(a)] + r2;
    Listed(Unwords(a), Unwords(b), Unwords(cd), Unwords(e));
    Regroup(a, b, c, d, e);
  }

  lemma DocCut()
    ensures Cut(DocConfig, DocTokens1() + DocTokens2() + DocTokens3() + DocTokens4() + DocTokens5())
            == [Unwords(DocTokens1()), Unwords(DocTokens2()), Unwords(DocTokens3() + DocTokens4()), Unwords(DocTokens5())]
  {
    DocSentence1Rules();
    DocSentence2Rules();
    DocSentence3Rules();
    DocSentence4Rules();
    CutFour(DocConfig, DocTokens1(), DocTokens2(), DocTokens3(), DocTokens4(), DocTokens5());
  }

  /** Over a text, the splitter yields the sentences cut from its tokens. */
  lemma SplitterOnText(seps: seq<char>, text: string, cfg: Config, ts: seq<string>)
    requires NonEmpty(SplitAt(seps, text)) == ts
    ensures Splitter.All(Splitter.New(New(FromText(text), seps), cfg.terminators, cfg.quotes))
            == Stream(Cut(cfg, ts), None)
  {
    var sp := Splitter.New(New(FromText(text), seps), cfg.terminators, cfg.quotes);
    FromTextFaultFree(text);
    Splitter.AllFollowsCut(sp);
    AllIsSplit(seps, text);
  }

  lemma SentenceDocCut()
    ensures Splitter.All(Splitter.New(New(FromText(SentenceDocText()), Whitespace), DocConfig.terminators, DocConfig.quotes))
            == Stream([Unwords(DocTokens1()), Unwords(DocTokens2()), Unwords(DocTokens3() + DocTokens4()), Unwords(DocTokens5())], None)
  {
    SentenceDocTokens();
    SplitterOnText(Whitespace, SentenceDocText(), DocConfig, DocTokens1() + DocTokens2() + DocTokens3() + DocTokens4() + DocTokens5());
    DocCut();
  }

  // The expected sentences written out. Each is assembled from pieces of a
  // few words, which keeps every comparison of strings short.
  lemma DocLine1Pieces()
    ensures Unwords(["I", "walked"]) == "I walked"
    ensures Unwords(["down", "the", "road."]) == "down the road."
  {
  }

  lemma DocLine1Join()
    ensures "I walked" + " " + "down the road." == "I walked down the road."
  {
  }

  lemma DocLine1Text()
    ensures Unwords(DocTokens1()) == "I walked down the road."
  {
    assert DocTokens1() == ["I", "walked"] + ["down", "the", "road."];
    UnwordsAppend(["I", "walked"], ["down", "the", "road."]);
    DocLine1Pieces();
    DocLine1Join();
  }

  lemma DocLine2Pieces()
    ensures Unwords(["\"What", "did", "he"]) == "\"What did he"
    ensures Unwords(["say\",", "she", "asked", "me."]) == "say\", she asked me."
  {
  }

  lemma DocLine2Join()
    ensures "\"What did he" + " " + "say\", she asked me." == "\"What did he say\", she asked me."
  {
  }

  lemma DocLine2Text()
    ensures Unwords(DocTokens2()) == "\"What did he say\", she asked me."
  {
    assert DocTokens2() == ["\"What", "did", "he"] + ["say\",", "she", "asked", "me."];
    UnwordsAppend(["\"What", "did", "he"], ["say\",", "she", "asked", "me."]);
    DocLine2Pieces();
    DocLine2Join();
  }

  lemma DocLine3Pieces()
    ensures Unwords(["\"Nothing\",", "I", "replied,"]) == "\"Nothing\", I replied,"
    ensures Unwords(["and", "continued", "walking..."]) == "and continued walking..."
  {
  }

  lemma DocLine3Join()
    ensures "\"Nothing\", I replied," + " " + "and continued walking..." == "\"Nothing\", I replied, and continued walking..."
  {
  }

  lemma DocLine3Text()
    ensures Unwords(DocTokens3()) == "\"Nothing\", I replied, and continued walking..."
  {
    assert DocTokens3() == ["\"Nothing\",", "I", "replied,"] + ["and", "continued", "walking..."];
    UnwordsAppend(["\"Nothing\",", "I", "replied,"], ["and", "continued", "walking..."]);
    DocLine3Pieces();
    DocLine3Join();
  }

  lemma DocLine4Pieces()
    ensures Unwords(["it", "wasn't", "any"]) == "it wasn't any"
    ensures Unwords(["of", "my", "business."]) == "of my business."
  {
  }

  lemma DocLine4Join()
    ensures "it wasn't any" + " " + "of my business." == "it wasn't any of my business."
  {
  }

  lemma DocLine4Text()
    ensures Unwords(DocTokens4()) == "it wasn't any of my business."
  {
    assert DocTokens4() == ["it", "wasn't", "any"] + ["of", "my", "business."];
    UnwordsAppend(["it", "wasn't", "any"], ["of", "my", "business."]);
    DocLine4Pieces();
    DocLine4Join();
  }

  lemma DocSentence3Join()
    ensures "\"Nothing\", I replied, and continued walking..." + " " + "it wasn't any of my business."
            == "\"Nothing\", I replied, and continued walking... it wasn't any of my business."
  {
  }

  /** The third sentence runs on across the line break after "walking...". */
  lemma DocSentence3Text()
    ensures Unwords(DocTokens3() + DocTokens4())
            == "\"Nothing\", I replied, and continued walking... it wasn't any of my business."
  {
    UnwordsAppend(DocTokens3(), DocTokens4());
    DocLine3Text();
    DocLine4Text();
    DocSentence3Join();
  }

  lemma DocLine5Text()
    ensures Unwords(DocTokens5()) == "Or was it?"
  {
  }

  /** The sentence-splitting example of src/lib.rs: with the terminators ".",
      "!" and "?" and no quote strings, the text yields four sentences, then
      `None`; the third runs on past the line break after "walking...",
      because a token ending in ".." does not end a sentence. */
  lemma SentenceDocExample()
    ensures Splitter.All(Splitter.New(New(FromText(SentenceDocText()), Whitespace), [".", "!", "?"], []))
            == Stream(["I walked down the road.",
                       "\"What did he say\", she asked me.",
                       "\"Nothing\", I replied, and continued walking... it wasn't any of my business.",
                       "Or was it?"], None)
  {
    SentenceDocCut();
    DocLine1Text();
    DocLine2Text();
    DocSentence3Text();
    DocLine5Text();
  }

  /** Scenario: "Hello world" split at spaces gives its two words. */
  lemma HelloWorldClean()
    ensures NoSeparator([' '], "Hello") && NoSeparator([' '], "world") && OnlySeparators([' '], " ")
  {
  }

  lemma HelloWorldList()
    ensures ["Hello"] + ["world"] == ["Hello", "world"]
  {
  }

  lemma HelloWorld()
    ensures All(New(FromText("Hello" + " " + "world"), [' '])) == Stream(["Hello", "world"], None)
  {
    HelloWorldClean();
    SplitAtWord([' '], "Hello");
    SplitAtWord([' '], "world");
    GapSplit([' '], "Hello", " ", "world");
    HelloWorldList();
    AllIsSplit([' '], "Hello" + " " + "world");
  }

  /** Scenario: the first line of the documentation example is one sentence. */
  lemma RoadScenario()
    ensures Splitter.All(Splitter.New(New(FromText(DocLine1()), Whitespace), [".", "!", "?"], []))
            == Stream(["I walked down the road."], None)
  {
    DocLine1Text();
    DocLine1Tokens();
    DocSentence1Rules();
    CutWords(DocConfig, DocTokens1(), []);
    assert DocTokens1() + [] == DocTokens1();
    assert Cut(DocConfig, []) == [];
    SplitterOnText(Whitespace, DocLine1(), DocConfig, DocTokens1());
  }

  /** Scenario: an ellipsis inside a sentence does not end it. */
  lemma WaitClean()
    ensures NoSeparator(Whitespace, "Wait...") && NoSeparator(Whitespace, "what?")
  {
  }

  lemma WaitDecisions()
    ensures Decide(DocConfig, None, "Wait...") == Continue(None)
    ensures Decide(DocConfig, None, "what?") == Close
  {
    Trails("Wait...");
    Closes("what?");
  }

  lemma WaitList()
    ensures ["Wait..."] + ["what?"] == ["Wait...", "what?"]
    ensures Unwords(["Wait...", "what?"]) == "Wait... what?"
  {
  }

  lemma WaitWhat()
    ensures Splitter.All(Splitter.New(New(FromText("Wait..." + " " + "what?"), Whitespace), [".", "!", "?"], []))
            == Stream(["Wait... what?"], None)
  {
    WaitClean();
    Gaps();
    SplitAtWord(Whitespace, "Wait...");
    SplitAtWord(Whitespace, "what?");
    GapSplit(Whitespace, "Wait...", " ", "what?");
    WaitList();
    var ws := ["Wait...", "what?"];
    WaitDecisions();
    OneSentenceLast(DocConfig, "what?");
    OneSentenceCons(DocConfig, "Wait...", ["what?"]);
    CutWords(DocConfig, ws, []);
    assert ws + [] == ws;
    assert Cut(DocConfig, []) == [];
    SplitterOnText(Whitespace, "Wait..." + " " + "what?", DocConfig, ws);
  }

  /** Scenario: an empty source ends both iterations at once, without error. */
  lemma EmptySource(seps: seq<char>, terminators: seq<string>, quotes: seq<string>)
    ensures Next(New([], seps)).out == Ok(None)
    ensures Splitter.Next(Splitter.New(New([], seps), terminators, quotes)).out == Ok(None)
  {
  }

  /** The configuration of the documentation example with the double quote
      as quote string. */
  const QuoteConfig: Config := Config([".", "!", "?"], ["\""])

  /** No token of `ws` ends with `q`. */
  predicate NoneEndsWith(ws: seq<string>, q: string)
  {
    forall j :: 0 <= j < |ws| ==> !EndsWith(ws[j], q)
  }

  lemma NoneEndsWithCons(w: string, ws: seq<string>, q: string)
    requires !EndsWith(w, q) && NoneEndsWith(ws, q)
    ensures NoneEndsWith([w] + ws, q)
  {
    forall j | 0 < j < |ws| + 1
      ensures !EndsWith(([w] + ws)[j], q)
    {
      assert ([w] + ws)[j] == ws[j - 1];
    }
  }

  /** A token opening a quote that no later token closes makes the whole
      input one sentence, every token followed by one space. */
  lemma QuoteNeverCloses(cfg: Config, w: string, ws: seq<string>, q: string)
    requires Decide(cfg, None, w) == Continue(Some(q)) && NoneEndsWith(ws, q)
    ensures Cut(cfg, [w] + ws) == [Spaced([w] + ws)]
  {
    var ts := [w] + ws;
    assert ts[0] == w && ts[1..] == ws;
    assert [] + w == w;
    TakeInQuote(cfg, q, ws, w + " ");
    assert Spaced(ts) == w + " " + Spaced(ws);
    assert w + " " + Spaced(ws) == Spaced(ts);
    assert Cut(cfg, []) == [];
  }

  lemma QuoteOpens()
    ensures Decide(QuoteConfig, None, "\"What") == Continue(Some("\""))
  {
    assert StartsWith("\"What", QuoteConfig.quotes[0]);
  }


  /** No word of the line after `"What` ends with a double quote. */
  lemma QuoteStaysOpen()
    ensures !EndsWith("did", "\"")
    ensures !EndsWith("he", "\"")
    ensures !EndsWith("say\",", "\"")
    ensures !EndsWith("she", "\"")
    ensures !EndsWith("asked", "\"")
    ensures !EndsWith("me.", "\"")
  {
  }

  /** The sentence returned at end of input: the line followed by one space. */
  lemma QuoteText()
    ensures Spaced(DocTokens2()) == "\"What did he say\", she asked me. "
  {
    SpacedUnwords(DocTokens2());
    DocLine2Text();
    assert "\"What did he say\", she asked me." + " " == "\"What did he say\", she asked me. ";
  }

  lemma QuoteList()
    ensures ["\"What"] + (["did"] + (["he"] + (["say\","] + (["she"] + (["asked"] + ["me."]))))) == DocTokens2()
  {
  }

  /** Scenario: the second line of the documentation example with the double
      quote as quote string. `"What` opens a quote and no later token ends
      with a double quote (`say",` ends with a comma), so the quote stays
      open to the end of the input and the one sentence returned ends with
      a space. */
  lemma QuoteScenario()
    ensures Splitter.All(Splitter.New(New(FromText(DocLine2()), Whitespace), [".", "!", "?"], ["\""]))
            == Stream(["\"What did he say\", she asked me. "], None)
  {
    DocLine2Tokens();
    QuoteOpens();
    QuoteStaysOpen();
    var u6 := ["me."];
    assert NoneEndsWith(u6, "\"");
    NoneEndsWithCons("asked", u6, "\"");
    var u5 := ["asked"] + u6;
    NoneEndsWithCons("she", u5, "\"");
    var u4 := ["she"] + u5;
    NoneEndsWithCons("say\",", u4, "\"");
    var u3 := ["say\","] + u4;
    NoneEndsWithCons("he", u3, "\"");
    var u2 := ["he"] + u3;
    NoneEndsWithCons("did", u2, "\"");
    var u1 := ["did"] + u2;
    QuoteNeverCloses(QuoteConfig, "\"What", u1, "\"");
    QuoteList();
    QuoteText();
    SplitterOnText(Whitespace, DocLine2(), QuoteConfig, DocTokens2());
  }

}
