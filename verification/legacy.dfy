/** The earlier revision in src/main.rs: a tokenizer and a sentence splitter
    that are `Iterator`s yielding plain `Option`s. Reaching the end of the
    reader ends the stream; any other read error makes the iterator panic.
    The splitter's terminators and quote strings are fixed by its constructor.
    Both are written as imperative loops, as in the source, and each call is
    proved to behave exactly as the corresponding call of the library
    revision, except that the library returns as an error what this revision
    panics on. */
module Legacy {
  import opened Io
  import opened Text
  import Tokens
  import opened Sentences
  import Splitter

  /** What one call of a legacy `next` does: yields a value, yields `None`, or
      panics with the reader's error. */
  datatype Reply = Yield(value: string) | Finished | Panic(error: CharsError)

  /** The legacy reply `reply` and the library result `out` say the same thing,
      reading the library's error as the legacy panic. */
  predicate Agrees(reply: Reply, out: Result<Option<string>>)
  {
    match reply
    case Yield(s) => out == Ok(Some(s))
    case Finished => out == Ok(None)
    case Panic(e) => out == Err(e)
  }

  /** The tokenizer of src/main.rs; its separators are called terminators. */
  datatype Tokenizer = Tokenizer(terminators: seq<char>, reader: seq<ReadItem>)

  /** `Tokenizer::new`. */
  function NewTokenizer(reader: seq<ReadItem>, terminators: seq<char>): (t: Tokenizer)
    ensures t.reader == reader && t.terminators == terminators
  {
    Tokenizer(terminators, reader)
  }

  /** The library tokenizer over the same reader and separators. */
  function LibTokenizer(t: Tokenizer): Tokens.Tokenizer
  {
    Tokens.New(t.reader, t.terminators)
  }

  /** `<Tokenizer as Iterator>::next`: reads characters until a terminator
      ends a non-empty run (terminators met before any other character are
      skipped), or the reader ends; panics on any other read error. */
  method TokenizerNext(t: Tokenizer) returns (reply: Reply, rest: Tokenizer)
    ensures rest.terminators == t.terminators
    ensures Agrees(reply, Tokens.Next(LibTokenizer(t)).out)
    ensures LibTokenizer(rest) == Tokens.Next(LibTokenizer(t)).state
    ensures reply.Yield? ==> reply.value != [] && NoSeparator(t.terminators, reply.value)
    ensures reply.Finished? <==> Tokens.OnlySeparatorReads(t.terminators, t.reader)
  {
    var seps := t.terminators;
    var current: string := [];
    var i := 0;
    while i < |t.reader|
      invariant i <= |t.reader|
      invariant Tokens.Scan(seps, t.reader, []) == Tokens.Scan(seps, t.reader[i..], current)
      decreases |t.reader| - i
    {
      assert t.reader[i..][1..] == t.reader[i + 1..];
      match t.reader[i]
      case Fault(e) =>
        return Panic(e), Tokenizer(seps, t.reader[i + 1..]);
      case Char(c) =>
        if c in seps {
          if current != [] {
            return Yield(current), Tokenizer(seps, t.reader[i + 1..]);
          }
        } else {
          current := current + [c];
        }
        i := i + 1;
    }
    assert t.reader[i..] == [];
    if current != [] {
      return Yield(current), Tokenizer(seps, []);
    }
    return Finished, Tokenizer(seps, []);
  }

  /** The splitter of src/main.rs, with the terminator and quote strings its
      constructor fixes. */
  datatype SentenceSplitter = SentenceSplitter(tokenizer: Tokenizer, terminators: seq<string>, quoteTypes: seq<string>)

  /** `SentenceSplitter::new`: the terminators are ".", "!" and "?", and the
      only quote string is the double quote. */
  function NewSplitter(source: Tokenizer): (sp: SentenceSplitter)
    ensures sp.tokenizer == source
    ensures forall s :: EndsWithAny(sp.terminators, s) <==> EndsWith(s, ".") || EndsWith(s, "!") || EndsWith(s, "?")
    ensures forall s :: FirstPrefix(sp.quoteTypes, s) == if StartsWith(s, "\"") then Some("\"") else None
  {
    FixedTerminators();
    SentenceSplitter(source, [".", "!", "?"], ["\""])
  }

  lemma FixedTerminators()
    ensures forall s :: EndsWithAny([".", "!", "?"], s) <==> EndsWith(s, ".") || EndsWith(s, "!") || EndsWith(s, "?")
  {
    var ts := [".", "!", "?"];
    forall s
      ensures EndsWithAny(ts, s) <==> EndsWith(s, ".") || EndsWith(s, "!") || EndsWith(s, "?")
    {
      if EndsWith(s, ".") {
        assert EndsWith(s, ts[0]);
      } else if EndsWith(s, "!") {
        assert EndsWith(s, ts[1]);
      } else if EndsWith(s, "?") {
        assert EndsWith(s, ts[2]);
      }
    }
  }

  /** The library splitter with the same tokenizer and configuration. */
  function LibSplitter(sp: SentenceSplitter): Splitter.SentenceSplitter
  {
    Splitter.New(LibTokenizer(sp.tokenizer), sp.terminators, sp.quoteTypes)
  }

  /** The legacy quote state: the empty string means no quote is open. */
  function OpenQuote(quote: string): Option<string>
  {
    if quote == [] then None else Some(quote)
  }

  /** `<SentenceSplitter as Iterator>::next`: joins tokens with single spaces
      until a termination rule fires or the tokenizer yields `None`; the open
      quote is a string that is empty while no quote is open. */
  method SplitterNext(sp: SentenceSplitter) returns (reply: Reply, rest: SentenceSplitter)
    ensures rest.terminators == sp.terminators && rest.quoteTypes == sp.quoteTypes
    ensures Agrees(reply, Splitter.Next(LibSplitter(sp)).out)
    ensures LibSplitter(rest) == Splitter.Next(LibSplitter(sp)).state
  {
    var cfg := Config(sp.terminators, sp.quoteTypes);
    var tok := sp.tokenizer;
    var current: string := [];
    var quote: string := [];
    while true
      invariant tok.terminators == sp.tokenizer.terminators
      invariant Splitter.Gather(cfg, LibTokenizer(sp.tokenizer), [], None)
                == Splitter.Gather(cfg, LibTokenizer(tok), current, OpenQuote(quote))
      decreases |tok.reader|
    {
      var r, next := TokenizerNext(tok);
      match r
      case Panic(e) =>
        return Panic(e), SentenceSplitter(next, sp.terminators, sp.quoteTypes);
      case Finished =>
        if |current| != 0 {
          return Yield(current), SentenceSplitter(next, sp.terminators, sp.quoteTypes);
        }
        return Finished, SentenceSplitter(next, sp.terminators, sp.quoteTypes);
      case Yield(s) =>
        current := current + s;
        if quote != [] {
          if EndsWith(s, quote) {
            return Yield(current), SentenceSplitter(next, sp.terminators, sp.quoteTypes);
          }
        } else {
          var qt := FirstPrefix(sp.quoteTypes, s);
          if qt.Some? {
            if EndsWith(s, qt.value) {
              return Yield(current), SentenceSplitter(next, sp.terminators, sp.quoteTypes);
            }
            quote := qt.value;
            current := current + " ";
            tok := next;
            continue;
          }
          if EndsWith(s, "..") {
            current := current + " ";
            tok := next;
            continue;
          }
          if EndsWithAny(sp.terminators, s) {
            return Yield(current), SentenceSplitter(next, sp.terminators, sp.quoteTypes);
          }
        }
        current := current + " ";
        tok := next;
    }
  }
}
