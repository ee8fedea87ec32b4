# token-rs in Dafny

A model of the two-stage text segmenter of the `token` crate, with proofs about it:

- **Tokenizer.** It reads a character stream and yields the maximal non-empty runs of non-separator characters.
- **SentenceSplitter.** It pulls tokens, appends each one to an accumulator followed by one space, and returns the accumulator when a termination rule fires. The rules are:
  - an open quote is closed by its own quote string;
  - a token starting with a quote string opens that quote;
  - a trailing ".." is suppressed;
  - a terminator suffix ends the sentence.

Both revisions of the code are modelled:

- the library (`src/lib.rs`), whose `next` calls return `Result<Option<&str>, CharsError>`;
- the earlier `Iterator` implementations in `src/main.rs`. There, any read error other than end of file panics, and the splitter's terminators and quote string are fixed.

Modules, in dependency order:

| module | file | contents |
|---|---|---|
| `Io` | io.dfy | `Option`, `Result`, the read error `CharsError`, and the character source as a sequence of reads (`ReadItem`: a character or a failed read). `Step` is one `next` call: its result and the state left behind. `Stream` is a whole iteration: the items, then the failure that ended it, if any. |
| `Text` | text.dfy | `StartsWith`/`EndsWith` (true of the empty string, as in Rust), separator predicates, and the joins `Concat`, `Unwords` and `Spaced`. |
| `Tokens` | tokens.dfy | `Tokenizer::next` as the pure function `Next`, its iteration `All`, and the reference tokenization `NonEmpty(SplitAt(..))` with the proof that the tokenizer computes it. |
| `Sentences` | sentences.dfy | The termination rules (`Decide`) and one splitter call (`Take`) and the whole iteration (`Cut`), both over a list of tokens. |
| `Splitter` | splitter.dfy | `SentenceSplitter::next` over a live tokenizer (`Gather`, `Next`, `All`). It is proved to follow `Take` and `Cut` on every fault-free source and to report the tokenizer's read error otherwise. |
| `Legacy` | legacy.dfy | The `src/main.rs` revision written as imperative loops shaped like the source. Each call is proved to do exactly what the library call does, with the library's `Err` read as the legacy panic. |
| `Examples` | examples.dfy | The two documentation examples and several concrete scenarios, evaluated on the model. |

How the model represents the source:

- The library's mutable `current` buffer and borrowed return values become owned strings.
- The open quote, the empty string `""` in the source, is an `Option<string>` in the library model.
- The legacy model keeps the empty-string encoding, so its equivalence with the library is proved, not assumed.

A sentence returned because the input ended keeps the space appended after its last token (`src/lib.rs:137-138`, `src/lib.rs:151`, `src/lib.rs:164`, `src/lib.rs:174`, `src/lib.rs:181`). `Sentences.TakeShape` states this for every call. `Examples.QuoteScenario` shows it on the line `"What did he say", she asked me.` with the double quote as quote string:

- `"What` opens a quote;
- no later token ends with a double quote, since `say",` ends with a comma;
- so the single sentence is the whole line followed by one space, not the line itself.

## Model

| member | source | states |
|---|---|---|
| Tokens.New | src/lib.rs:52-58 | The tokenizer keeps the given reader and separator characters. |
| Tokens.Scan | src/lib.rs:63-81 | The reading loop never reads past its source. It reports the end (`Ok(None)`) only with an empty run and nothing left to read. Every other outcome that does not extend an existing run consumes at least one read. |
| Tokens.ScanContract | src/lib.rs:64-81 | What the loop leaves is a suffix of its source. A token it returns is non-empty and holds no separator. Started with an empty run, it reports the end exactly when every read left is a successful separator read. |
| Tokens.ScanStopsAtFault | src/lib.rs:64-65 | An error result is the first failed read: everything before it was read successfully, and reading resumes right after it. |
| Tokens.Next | src/lib.rs:62-82 | A yielded token is non-empty, holds no separator character and consumes input. `Ok(None)` is returned exactly when the source holds only separators (the empty source included), and then nothing is left. An `Err` is the first failed read, every read before it succeeded, and the read after it comes next. |
| Tokens.All | src/lib.rs:62-82 | Every token of the iteration is non-empty. The iteration ends with no error exactly when no read of the source fails, so a failed read anywhere ends it with an error. |
| Tokens.ConsumedFaultFree | src/lib.rs:64-74 | A call that yields a token has only read successfully: the leading separators, the token's characters and the separator that ends it. |
| Tokens.StaysExhausted | src/lib.rs:76-81 | For a reader whose end of input is final, as the byte-slice readers at src/lib.rs:15 and src/lib.rs:104 are: once `next` has returned `None`, every later call returns `None` again, for any number of calls. |
| Tokens.ScanSkipsSeparators | src/lib.rs:67-70 | Separators read while the buffer is empty are discarded: the call behaves as if the source started after them. |
| Tokens.NextReadsOneRun | src/lib.rs:64-81 | A call that yields a token skips the leading separators and reads exactly the token's characters. It stops right after the separator that ends the token, or at the end of the source. |
| Tokens.SplitAtPieces | src/lib.rs:67-74 | No piece of the reference tokenization (the text cut at every separator) contains a separator. |
| Tokens.AllIsSplit | src/lib.rs:62-82 | The tokens of a fault-free text are exactly its pieces between separators with the empty pieces dropped, in order. Leading, trailing and repeated separators therefore yield nothing, and trailing text with no final separator is still a token. |
| Tokens.AllKeepsText | src/lib.rs:64-81 | Character conservation: the tokens written one after another are the text with every separator character removed. |
| Tokens.SourceIsSplit | src/lib.rs:62-82 | Both facts above hold for every source with no failed read, taken as the characters it delivers: the tokens are its non-empty pieces between separators, and together they are its characters with the separators removed. |
| Tokens.GapSplit | src/lib.rs:67-70 | A non-empty run of separators between two texts separates their tokens: the tokens of the whole are those of the left text followed by those of the right. |
| Tokens.UnwordsSplit | src/lib.rs:62-82 | Non-empty, separator-free words joined by single spaces, with the space a separator, tokenize back to exactly those words. |
| Tokens.LeadingGap | src/lib.rs:67-70 | A run of separators at the front of a text yields no token. |
| Sentences.FirstPrefix | src/lib.rs:158 | `find` over the quote strings: `None` exactly when no quote string is a prefix of the token. Otherwise it is the first quote string in list order that is a prefix. |
| Sentences.Decide | src/lib.rs:158-165 | A quote that a token opens is never the empty string, because every token ends with the empty string and so closes at once. The source's use of `""` for "no open quote" is therefore sound. |
| Sentences.DecideRules | src/lib.rs:146-181 | The rule priority. Inside a quote, only that quote at the end of the token closes the sentence, and terminators and ".." are ignored. Otherwise, a token starting with the first matching quote string closes at once if it also ends with it, and else opens it. Otherwise a token ending in ".." never closes, even when "." is a terminator. Otherwise a token closes exactly when it ends with some terminator. |
| Sentences.Take | src/lib.rs:130-183 | One call over a token list returns nothing exactly when nothing was accumulated and no token is left. What it leaves is a suffix of its input. A sentence starts with the accumulated text followed by the first token. |
| Sentences.TakeShape | src/lib.rs:133-181 | A call consumes the tokens up to the first one on which a rule fires. The sentence is those tokens, each but the last followed by one space. If no rule fires, the call consumes every token and the sentence is each token followed by one space, trailing space included, or nothing if that is empty. |
| Sentences.Cut | src/lib.rs:130-142 | The whole iteration over tokens: with non-empty tokens every sentence is non-empty, and a non-empty token list yields at least one sentence. |
| Sentences.TakeWords | src/lib.rs:170-181 | Outside a quote, words on which no rule fires, followed by one on which a rule fires, are returned as one sentence: the words joined by single spaces, with no trailing space. The tokens after them are left for the next call. |
| Sentences.CutWords | src/lib.rs:170-181 | Such words are the next sentence of the iteration, and the rest of the iteration continues on the tokens after them. |
| Sentences.TakeInQuote | src/lib.rs:146-153 | While a quote is open, tokens not ending with it are accumulated, each followed by one space, up to the end of input. |
| Splitter.New | src/lib.rs:118-127 | The splitter keeps the given tokenizer, terminators and quote strings. |
| Splitter.Gather | src/lib.rs:133-182 | The loop of `next`. It returns `None` exactly when nothing was accumulated and the tokenizer is exhausted. A sentence starts with the accumulated text and is non-empty. Separators are kept, the tokenizer only advances, and a call starting from nothing consumes input unless it returns `None`. |
| Splitter.Next | src/lib.rs:130-183 | `next` returns `None` exactly when the tokenizer's own `next` would. A returned sentence is non-empty. The configuration is unchanged, and a call that does not return `None` consumes input. |
| Splitter.All | src/lib.rs:130-183 | No sentence of the iteration is empty. |
| Splitter.GatherFollowsTake | src/lib.rs:133-182 | On a fault-free source, the loop over the live tokenizer returns what `Take` returns over the tokenizer's tokens. It leaves a tokenizer that yields exactly the tokens `Take` left. |
| Splitter.AllFollowsCut | src/lib.rs:130-183 | On a fault-free source, the sentences are exactly `Cut` of the tokenizer's tokens, and the iteration ends without error. |
| Splitter.GatherFaultIsTokenizerFault | src/lib.rs:134 | A failing loop forwards unchanged the read error that ends the tokenizer's stream. |
| Splitter.SourceFaultReported | src/lib.rs:130-183 | The sentence iteration ends with no error exactly when no read of the source fails. |
| Splitter.GatherKeepsFault | src/lib.rs:134-181 | A successful call leaves a tokenizer whose stream fails, if at all, with the same error as before. |
| Splitter.AllFaultIsTokenizerFault | src/lib.rs:134 | The sentence iteration ends with a read error exactly when the tokenizer's iteration does, and with the same error: every read error reaches the caller unchanged, and no other error is reported. |
| Legacy.NewTokenizer | src/main.rs:19-25 | The tokenizer keeps its reader and separator characters. |
| Legacy.TokenizerNext | src/main.rs:35-73 | The imperative loop agrees with the library's `next` on every source: the same token, `None`, or the library's error as the panic. It leaves the same reader behind. A token is non-empty and holds no separator. It returns `None` exactly when every read is a separator. |
| Legacy.NewSplitter | src/main.rs:88-95 | The terminators are ".", "!" and "?". The only quote string is the double quote, so the first quote prefix of a token is the double quote exactly when the token starts with one. |
| Legacy.SplitterNext | src/main.rs:97-153 | The imperative loop, with `""` as "no open quote", agrees on every source with the library's `next` under the same configuration: the same sentence, `None`, or error. It leaves the same tokenizer behind. |
| Examples.TokenizerDocExample | src/lib.rs:11-26 | The crate example yields exactly "Hello", "world", "How", "do", "you", "do", "-Finely", "I", "hope" and then `None`. |
| Examples.SentenceDocExample | src/lib.rs:97-117 | The sentence example with no quote strings yields exactly the four strings of the doc test, `I walked down the road.`, `"What did he say", she asked me.`, `"Nothing", I replied, and continued walking... it wasn't any of my business.` and `Or was it?`, and then `None`. The third spans the line break after "walking...". |
| Examples.HelloWorld | src/lib.rs:62-82 | "Hello world" split at spaces gives "Hello" and "world". |
| Examples.RoadScenario | src/lib.rs:170-179 | "I walked down the road." is one sentence, exactly that string, with no trailing space. |
| Examples.WaitWhat | src/lib.rs:172-179 | "Wait... what?" is one sentence, exactly that string: the ellipsis does not end it. |
| Examples.QuoteScenario | src/lib.rs:146-166 | With the double quote as quote string, a quote opened by `"What` and never closed keeps the whole line as one sentence: exactly `"What did he say", she asked me. `, ending with a space. |
| Examples.EmptySource | src/lib.rs:134-142 | An empty source gives `None` at once from the tokenizer and from the splitter, without error. |

## Left out

- `main` (src/main.rs:160-185) is left out: argument handling, file checks, reading the file and printing are I/O.
- `size_hint` (src/main.rs:75-77, src/main.rs:155-157) always returns `(0, None)` and has no behaviour to state.
- `Tokenizer::from_str` (src/main.rs:29-33) only wraps a string in a buffered reader. The examples build the source from a string with `FromText` instead.
- Decoding the reader into characters (`io::Chars`, UTF-8 decoding, `BufferedReader`, `IoErrorKind`) is not modelled. The source is a sequence of reads, each a character or an opaque error `CharsError`, and the end of the sequence is the end of input. The error's contents and the panic message of src/main.rs:68 are not modelled.
- Borrowed return values, reuse of the `current` buffers, and lifetimes are not modelled: results are owned strings.
- Legacy.SplitterNext: the search for a quote prefix uses the library's `FirstPrefix` rather than a literal loop over `quote_types`. Both take the first entry in list order that is a prefix.
- Tokens.StaysExhausted: the model's reader is a finite sequence whose end is final, as the byte-slice readers at src/lib.rs:15 and src/lib.rs:104 are. A reader that reports its end (a `read` of 0 bytes) and later delivers more data would make the loop at src/lib.rs:64 resume, so `next` would yield tokens again after `Ok(None)`. The model makes no promise for such readers.
