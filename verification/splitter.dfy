/** `SentenceSplitter` of src/lib.rs: pulls tokens from a `Tokenizer` and
    joins them with single spaces until a termination rule of `Sentences`
    fires or the tokens run out. */
module Splitter {
  import opened Io
  import opened Text
  import Tokens
  import opened Sentences

  /** The splitter's persistent state: its tokenizer and its configuration.
      The sentence buffer and the open quote live only for one call of `Next`. */
  datatype SentenceSplitter = SentenceSplitter(tokenizer: Tokens.Tokenizer, cfg: Config)

  /** `SentenceSplitter::new`. */
  function New(source: Tokens.Tokenizer, terminators: seq<string>, quotes: seq<string>): (sp: SentenceSplitter)
    ensures sp.tokenizer == source
    ensures sp.cfg.terminators == terminators && sp.cfg.quotes == quotes
  {
    SentenceSplitter(source, Config(terminators, quotes))
  }

  /** The loop of `SentenceSplitter::next`, having accumulated `current` with
      `quote` open: returns the sentence and the tokenizer left behind. */
  function Gather(cfg: Config, tok: Tokens.Tokenizer, current: string, quote: Option<string>): (r: Step<string, Tokens.Tokenizer>)
    ensures r.state.separators == tok.separators
    ensures IsSuffix(r.state.chars, tok.chars)
    ensures r.out == Ok(None) <==> current == [] && Tokens.Next(tok).out == Ok(None)
    ensures r.out.Ok? && r.out.value.Some? ==> StartsWith(r.out.value.value, current) && r.out.value.value != []
    ensures current == [] && r.out != Ok(None) ==> |r.state.chars| < |tok.chars|
    decreases |tok.chars|
  {
    var st := Tokens.Next(tok);
    match st.out
    case Err(e) => Step(Err(e), st.state)
    case Ok(None) =>
      if |current| != 0 then Step(Ok(Some(current)), st.state) else Step(Ok(None), st.state)
    case Ok(Some(s)) =>
      var cur := current + s;
      match Decide(cfg, quote, s)
      case Close => Step(Ok(Some(cur)), st.state)
      case Continue(q) => Gather(cfg, st.state, cur + " ", q)
  }

  /** `SentenceSplitter::next`: the next sentence, `None` once the tokenizer has
      no token left, or the tokenizer's read error. */
  function Next(sp: SentenceSplitter): (r: Step<string, SentenceSplitter>)
    ensures r.state.cfg == sp.cfg
    ensures r.state.tokenizer.separators == sp.tokenizer.separators
    ensures r.out == Ok(None) <==> Tokens.Next(sp.tokenizer).out == Ok(None)
    ensures r.out.Ok? && r.out.value.Some? ==> r.out.value.value != []
    ensures r.out != Ok(None) ==> |r.state.tokenizer.chars| < |sp.tokenizer.chars|
  {
    var g := Gather(sp.cfg, sp.tokenizer, [], None);
    Step(g.out, SentenceSplitter(g.state, sp.cfg))
  }

  /** Every sentence the splitter yields, in order, until it returns `None` or
      fails; a failure ends the stream and is recorded. */
  function All(sp: SentenceSplitter): (r: Stream<string>)
    ensures forall i :: 0 <= i < |r.items| ==> r.items[i] != []
    decreases |sp.tokenizer.chars|
  {
    var step := Next(sp);
    match step.out
    case Err(e) => Stream([], Some(e))
    case Ok(None) => Stream([], None)
    case Ok(Some(x)) =>
      var rest := All(step.state);
      Stream([x] + rest.items, rest.fault)
  }

  lemma AllTokensStep(tok: Tokens.Tokenizer)
    requires Tokens.Next(tok).out.Ok? && Tokens.Next(tok).out.value.Some?
    ensures Tokens.All(tok).items == [Tokens.Next(tok).out.value.value] + Tokens.All(Tokens.Next(tok).state).items
    ensures Tokens.All(tok).fault == Tokens.All(Tokens.Next(tok).state).fault
  {
  }

  /** On a source free of read errors, one call of the splitter's loop is
      `Take` over the tokens the tokenizer would yield, and leaves behind a
      tokenizer that yields exactly the tokens `Take` did not consume. */
  lemma {:induction false} GatherFollowsTake(cfg: Config, tok: Tokens.Tokenizer, current: string, quote: Option<string>)
    requires FaultFree(tok.chars)
    ensures var g := Take(cfg, Tokens.All(tok).items, current, quote);
            var r := Gather(cfg, tok, current, quote);
            && r.out == Ok(g.sentence)
            && Tokens.All(r.state).items == g.rest
            && FaultFree(r.state.chars)
    decreases |tok.chars|
  {
    var st := Tokens.Next(tok);
    SuffixFaultFree(st.state.chars, tok.chars);
    if st.out.Err? {
      assert false;
    } else if st.out.value.Some? {
      var s := st.out.value.value;
      AllTokensStep(tok);
      if Decide(cfg, quote, s).Continue? {
        GatherFollowsTake(cfg, st.state, current + s + " ", Decide(cfg, quote, s).quote);
      }
    }
  }

  /** A failing call of the splitter's loop reports the read error that ends
      the tokenizer's own stream. */
  lemma {:induction false} GatherFaultIsTokenizerFault(cfg: Config, tok: Tokens.Tokenizer, current: string, quote: Option<string>)
    ensures Gather(cfg, tok, current, quote).out.Err? ==>
              Tokens.All(tok).fault == Some(Gather(cfg, tok, current, quote).out.error)
    decreases |tok.chars|
  {
    var st := Tokens.Next(tok);
    if st.out.Ok? && st.out.value.Some? {
      var s := st.out.value.value;
      AllTokensStep(tok);
      if Decide(cfg, quote, s).Continue? {
        GatherFaultIsTokenizerFault(cfg, st.state, current + s + " ", Decide(cfg, quote, s).quote);
      }
    }
  }

  /** On a source free of read errors, the sentences are exactly those
      `Cut` takes from the tokenizer's tokens, and the stream ends without
      a fault. */
  lemma {:induction false} AllFollowsCut(sp: SentenceSplitter)
    requires FaultFree(sp.tokenizer.chars)
    ensures All(sp) == Stream(Cut(sp.cfg, Tokens.All(sp.tokenizer).items), None)
    decreases |sp.tokenizer.chars|
  {
    var ts := Tokens.All(sp.tokenizer).items;
    GatherFollowsTake(sp.cfg, sp.tokenizer, [], None);
    var step := Next(sp);
    var g := Take(sp.cfg, ts, [], None);
    if step.out != Ok(None) {
      AllFollowsCut(step.state);
      assert |g.rest| < |ts| by {
        TakeShape(sp.cfg, ts, [], None);
      }
    }
  }

  /** The splitter's iteration ends with a read error exactly when its
      tokenizer's does, and with the same error: every read error reaches the
      caller, unchanged, and no other error is reported. */
  lemma {:induction false} AllFaultIsTokenizerFault(sp: SentenceSplitter)
    ensures All(sp).fault == Tokens.All(sp.tokenizer).fault
    decreases |sp.tokenizer.chars|
  {
    var step := Next(sp);
    GatherFaultIsTokenizerFault(sp.cfg, sp.tokenizer, [], None);
    if step.out.Ok? && step.out.value.Some? {
      AllFaultIsTokenizerFault(step.state);
      GatherKeepsFault(sp.cfg, sp.tokenizer, [], None);
    }
  }

  /** The sentence iteration ends without an error exactly when no read of
      the source fails. */
  lemma SourceFaultReported(sp: SentenceSplitter)
    ensures All(sp).fault == None <==> FaultFree(sp.tokenizer.chars)
  {
    AllFaultIsTokenizerFault(sp);
  }

  /** The tokenizer left behind by a successful call fails, if at all, with
      the same error as the one the call started from. */
  lemma {:induction false} GatherKeepsFault(cfg: Config, tok: Tokens.Tokenizer, current: string, quote: Option<string>)
    requires Gather(cfg, tok, current, quote).out.Ok?
    ensures Tokens.All(Gather(cfg, tok, current, quote).state).fault == Tokens.All(tok).fault
    decreases |tok.chars|
  {
    var st := Tokens.Next(tok);
    if st.out.value.Some? {
      var s := st.out.value.value;
      AllTokensStep(tok);
      if Decide(cfg, quote, s).Continue? {
        GatherKeepsFault(cfg, st.state, current + s + " ", Decide(cfg, quote, s).quote);
      }
    }
  }
}
