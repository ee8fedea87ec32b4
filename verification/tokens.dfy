/** The tokenizer of the library revision (`Tokenizer` in src/lib.rs): it reads
    characters one at a time and returns maximal non-empty runs of
    non-separator characters. Separators are dropped, runs of them collapse,
    and text still unterminated at the end of the source is returned as a
    last token. The reused buffer of the original becomes an owned string
    built afresh by every call. */
module Tokens {
  import opened Io
  import opened Text

  /** The separator characters, and the reads still to come. */
  datatype Tokenizer = Tokenizer(separators: seq<char>, chars: seq<ReadItem>)

  /** A tokenizer over `reader` splitting at the characters in `separators`. */
  function New(reader: seq<ReadItem>, separators: seq<char>): (t: Tokenizer)
    ensures t.separators == separators && t.chars == reader
  {
    Tokenizer(separators, reader)
  }

  /** Every read of `src` succeeds and yields a separator. */
  predicate OnlySeparatorReads(seps: seq<char>, src: seq<ReadItem>)
  {
    forall i :: 0 <= i < |src| ==> src[i].Char? && src[i].c in seps
  }

  /** The read `x` succeeds and yields a separator. */
  predicate IsSeparatorRead(seps: seq<char>, x: ReadItem)
  {
    x.Char? && x.c in seps
  }

  /** The reading loop of `Tokenizer::next`: `buf` holds the characters of the
      run read so far; the result is the call's outcome and the reads left. */
  function Scan(seps: seq<char>, src: seq<ReadItem>, buf: string): (r: Step<string, seq<ReadItem>>)
    ensures |r.state| <= |src|
    ensures r.out == Ok(None) ==> r.state == [] && buf == []
    ensures r.out != Ok(None) && (buf == [] || r.out.Err?) ==> |r.state| < |src|
    decreases |src|
  {
    if |src| == 0 then
      if |buf| != 0 then Step(Ok(Some(buf)), src) else Step(Ok(None), src)
    else
      match src[0]
      case Fault(e) => Step(Err(e), src[1..])
      case Char(c) =>
        if c in seps then
          if |buf| != 0 then Step(Ok(Some(buf)), src[1..])
          else Scan(seps, src[1..], buf)
        else Scan(seps, src[1..], buf + [c])
  }

  /** The reads `Scan` leaves are a suffix of its source; a token it returns is
      non-empty and free of separators; started with an empty run, it reports
      the end exactly when every read left is a separator. */
  lemma {:induction false} ScanContract(seps: seq<char>, src: seq<ReadItem>, buf: string)
    requires NoSeparator(seps, buf)
    ensures var r := Scan(seps, src, buf);
            && IsSuffix(r.state, src)
            && (r.out.Ok? && r.out.value.Some? ==>
                  |r.out.value.value| > 0 && NoSeparator(seps, r.out.value.value))
            && (buf == [] ==> (r.out == Ok(None) <==> OnlySeparatorReads(seps, src)))
    decreases |src|
  {
    if src != [] && src[0].Char? {
      var c := src[0].c;
      var r := Scan(seps, src, buf);
      if c in seps {
        if buf == [] {
          ScanContract(seps, src[1..], buf);
          assert r == Scan(seps, src[1..], buf);
          assert src[|src| - |r.state|..] == src[1..][|src[1..]| - |r.state|..];
        }
      } else {
        ScanContract(seps, src[1..], buf + [c]);
        assert r == Scan(seps, src[1..], buf + [c]);
        assert src[|src| - |r.state|..] == src[1..][|src[1..]| - |r.state|..];
        if buf == [] {
          assert !OnlySeparatorReads(seps, src) by {
            assert !(src[0].Char? && src[0].c in seps);
          }
        }
      }
    }
  }

  /** `Scan` fails at the first faulty read, after reading only characters before it. */
  lemma {:induction false} ScanStopsAtFault(seps: seq<char>, src: seq<ReadItem>, buf: string)
    ensures var r := Scan(seps, src, buf);
            var j := |src| - |r.state| - 1;
            r.out.Err? ==>
            && 0 <= j
            && src[j] == Fault(r.out.error)
            && FaultFree(src[..j])
            && r.state == src[j + 1..]
    decreases |src|
  {
    var r := Scan(seps, src, buf);
    if r.out.Err? && src[0].Char? {
      var c := src[0].c;
      var buf' := if c in seps then buf else buf + [c];
      assert r == Scan(seps, src[1..], buf');
      ScanStopsAtFault(seps, src[1..], buf');
      var j := |src| - |r.state| - 1;
      assert src[j] == src[1..][j - 1];
      assert src[..j] == [src[0]] + src[1..][..j - 1];
      assert src[j + 1..] == src[1..][j..];
    }
  }

  /** `Tokenizer::next`: the next token, `None` once the source holds only
      separators, or the read error met before a token was complete. */
  function Next(t: Tokenizer): (r: Step<string, Tokenizer>)
    ensures r.state.separators == t.separators
    ensures IsSuffix(r.state.chars, t.chars)
    ensures r.out.Ok? && r.out.value.Some? ==>
              && |r.out.value.value| > 0
              && NoSeparator(t.separators, r.out.value.value)
              && |r.state.chars| < |t.chars|
    ensures r.out == Ok(None) <==> OnlySeparatorReads(t.separators, t.chars)
    ensures r.out == Ok(None) ==> r.state.chars == []
    ensures r.out.Err? ==>
              && |r.state.chars| < |t.chars|
              && t.chars[|t.chars| - |r.state.chars| - 1] == Fault(r.out.error)
              && FaultFree(t.chars[..|t.chars| - |r.state.chars| - 1])
  {
    ScanContract(t.separators, t.chars, []);
    ScanStopsAtFault(t.separators, t.chars, []);
    var s := Scan(t.separators, t.chars, []);
    Step(s.out, Tokenizer(t.separators, s.state))
  }

  /** Every token the tokenizer yields, in order, until it returns `None` or
      fails; a failure ends the stream and is recorded. */
  function All(t: Tokenizer): (r: Stream<string>)
    ensures forall i :: 0 <= i < |r.items| ==>
              |r.items[i]| > 0 && NoSeparator(t.separators, r.items[i])
    ensures r.fault == None <==> FaultFree(t.chars)
    decreases |t.chars|
  {
    var step := Next(t);
    match step.out
    case Err(e) => Stream([], Some(e))
    case Ok(None) => Stream([], None)
    case Ok(Some(tok)) =>
      SuffixFaultFreeIfAny(step.state.chars, t.chars);
      ConsumedFaultFree(t);
      JoinFaultFree(step.state.chars, t.chars);
      var rest := All(step.state);
      Stream([tok] + rest.items, rest.fault)
  }

  /** A call that yields a token reads only successfully: the leading
      separators, the token's characters and the separator that ends it. */
  lemma ConsumedFaultFree(t: Tokenizer)
    requires Next(t).out.Ok? && Next(t).out.value.Some?
    ensures FaultFree(t.chars[..|t.chars| - |Next(t).state.chars|])
  {
    var seps, src := t.separators, t.chars;
    var k := LeadingSeparators(seps, src);
    var tok := Next(t).out.value.value;
    NextReadsOneRun(t);
    FromTextFaultFree(tok);
    var used := src[..|src| - |Next(t).state.chars|];
    forall i | 0 <= i < |used|
      ensures used[i].Char?
    {
      if k <= i < k + |tok| {
        assert used[i] == src[k..k + |tok|][i - k];
      }
    }
  }

  /** Reads that succeeded followed by a fault-free rest are fault-free. */
  lemma JoinFaultFree(tail: seq<ReadItem>, src: seq<ReadItem>)
    requires IsSuffix(tail, src) && FaultFree(src[..|src| - |tail|])
    ensures FaultFree(tail) ==> FaultFree(src)
  {
    if FaultFree(tail) {
      var n := |src| - |tail|;
      forall i | 0 <= i < |src|
        ensures src[i].Char?
      {
        if i < n {
          assert src[i] == src[..n][i];
        } else {
          assert src[i] == tail[i - n];
        }
      }
    }
  }

  lemma SuffixFaultFreeIfAny(tail: seq<ReadItem>, src: seq<ReadItem>)
    requires IsSuffix(tail, src)
    ensures FaultFree(src) ==> FaultFree(tail)
  {
    if FaultFree(src) {
      SuffixFaultFree(tail, src);
    }
  }

  /** The state after `n` further calls of `next`. */
  function After(t: Tokenizer, n: nat): Tokenizer
    decreases n
  {
    if n == 0 then t else After(Next(t).state, n - 1)
  }

  /** With nothing left to read, `next` returns `None` and changes nothing. */
  lemma NextAtEnd(e: Tokenizer)
    requires e.chars == []
    ensures Next(e) == Step(Ok(None), e)
  {
    assert Scan(e.separators, [], []) == Step(Ok(None), []);
  }

  /** With nothing left to read, any number of calls leaves the tokenizer as it is. */
  lemma {:induction false} AfterAtEnd(e: Tokenizer, n: nat)
    requires e.chars == []
    ensures After(e, n) == e
    decreases n
  {
    if n > 0 {
      NextAtEnd(e);
      AfterAtEnd(e, n - 1);
    }
  }

  /** Once `next` has returned `None`, every later call returns `None` too.
      This rests on the end of a modelled source being final: a reader that
      delivered more data after reporting its end would be read again by the
      loop of `next`. */
  lemma {:induction false} StaysExhausted(t: Tokenizer, n: nat)
    requires Next(t).out == Ok(None)
    ensures Next(After(Next(t).state, n)).out == Ok(None)
    ensures After(Next(t).state, n).chars == []
  {
    var e := Next(t).state;
    AfterAtEnd(e, n);
    NextAtEnd(e);
  }

  /** The number of separator reads at the front of `src`. */
  function LeadingSeparators(seps: seq<char>, src: seq<ReadItem>): (k: nat)
    ensures k <= |src|
    ensures forall i :: 0 <= i < k ==> IsSeparatorRead(seps, src[i])
    ensures k < |src| ==> !IsSeparatorRead(seps, src[k])
  {
    if src == [] || !IsSeparatorRead(seps, src[0]) then 0
    else 1 + LeadingSeparators(seps, src[1..])
  }

  lemma {:induction false} ScanSkipsSeparators(seps: seq<char>, src: seq<ReadItem>)
    ensures Scan(seps, src, []) == Scan(seps, src[LeadingSeparators(seps, src)..], [])
    decreases |src|
  {
    if src != [] && IsSeparatorRead(seps, src[0]) {
      ScanSkipsSeparators(seps, src[1..]);
      assert src[1..][LeadingSeparators(seps, src[1..])..] == src[LeadingSeparators(seps, src)..];
    }
  }

  lemma {:induction false} ScanReadsRun(seps: seq<char>, src: seq<ReadItem>, buf: string)
    requires NoSeparator(seps, buf) && buf != []
    requires Scan(seps, src, buf).out.Ok?
    ensures var r := Scan(seps, src, buf);
            var tok := r.out.value.value;
            && r.out.value.Some?
            && |buf| <= |tok| <= |buf| + |src|
            && tok[..|buf|] == buf
            && var m := |tok| - |buf|;
            && src[..m] == FromText(tok[|buf|..])
            && ((m == |src| && r.state == [])
                || (m < |src| && IsSeparatorRead(seps, src[m]) && r.state == src[m + 1..]))
    decreases |src|
  {
    if src != [] && src[0].Char? && src[0].c !in seps {
      var c := src[0].c;
      ScanReadsRun(seps, src[1..], buf + [c]);
      var tok := Scan(seps, src, buf).out.value.value;
      var m := |tok| - |buf|;
      assert tok[|buf|..] == [c] + tok[|buf| + 1..];
      assert src[..m] == [src[0]] + src[1..][..m - 1];
    }
  }

  /** The token `tok` occupies the reads of `src` from position `k` on, and
      `rest` is what follows the separator ending it (nothing, if the token
      runs to the end of `src`). */
  predicate RunAt(seps: seq<char>, src: seq<ReadItem>, k: nat, tok: string, rest: seq<ReadItem>)
  {
    && k + |tok| <= |src|
    && src[k..k + |tok|] == FromText(tok)
    && ((k + |tok| == |src| && rest == [])
        || (k + |tok| < |src| && IsSeparatorRead(seps, src[k + |tok|]) && rest == src[k + |tok| + 1..]))
  }

  lemma RunAtShift(seps: seq<char>, src: seq<ReadItem>, k: nat, tok: string, rest: seq<ReadItem>)
    requires k <= |src| && RunAt(seps, src[k..], 0, tok, rest)
    ensures RunAt(seps, src, k, tok, rest)
  {
    assert src[k..][0..|tok|] == src[k..k + |tok|];
    if k + |tok| < |src| {
      assert src[k..][|tok|] == src[k + |tok|];
      assert src[k..][|tok| + 1..] == src[k + |tok| + 1..];
    }
  }

  /** `Scan` started on a non-separator character reads the run that begins there. */
  lemma ScanRunFromStart(seps: seq<char>, src: seq<ReadItem>)
    requires src != [] && src[0].Char? && src[0].c !in seps
    requires Scan(seps, src, []).out.Ok?
    ensures var r := Scan(seps, src, []);
            r.out.value.Some? && RunAt(seps, src, 0, r.out.value.value, r.state)
  {
    var c := src[0].c;
    assert [] + [c] == [c];
    var r1 := Scan(seps, src[1..], [c]);
    assert Scan(seps, src, []) == r1;
    ScanReadsRun(seps, src[1..], [c]);
    var tok := r1.out.value.value;
    var body := src[1..][..|tok| - 1];
    assert body == FromText(tok[1..]);
    assert tok[0] == c;
    assert FromText(tok) == [Char(c)] + FromText(tok[1..]);
    assert src[0..|tok|] == [Char(c)] + body;
    if |tok| < |src| {
      assert src[|tok|] == src[1..][|tok| - 1];
      assert src[|tok| + 1..] == src[1..][|tok|..];
    }
  }

  /** One call of `next` that yields a token skips the separators in front of
      it, reads the token's characters, and stops right after the separator
      that ends it, or at the end of the source. */
  lemma NextReadsOneRun(t: Tokenizer)
    requires Next(t).out.Ok? && Next(t).out.value.Some?
    ensures RunAt(t.separators, t.chars, LeadingSeparators(t.separators, t.chars),
                  Next(t).out.value.value, Next(t).state.chars)
  {
    var seps, src := t.separators, t.chars;
    var k := LeadingSeparators(seps, src);
    ScanSkipsSeparators(seps, src);
    ScanRunFromStart(seps, src[k..]);
    RunAtShift(seps, src, k, Next(t).out.value.value, Next(t).state.chars);
  }

  /** The reference tokenization: the pieces between consecutive separators
      (empty ones included), as a string split at every separator. */
  function SplitAt(seps: seq<char>, s: string): (r: seq<string>)
    ensures |r| > 0
  {
    if s == [] then [[]]
    else
      var tail := SplitAt(seps, s[1..]);
      if s[0] in seps then [[]] + tail
      else [[s[0]] + tail[0]] + tail[1..]
  }

  /** Non-empty words holding no separator. */
  predicate Words(seps: seq<char>, ws: seq<string>)
  {
    forall i :: 0 <= i < |ws| ==> ws[i] != [] && NoSeparator(seps, ws[i])
  }

  /** No piece of the reference tokenization holds a separator. */
  lemma {:induction false} SplitAtPieces(seps: seq<char>, s: string)
    ensures forall i :: 0 <= i < |SplitAt(seps, s)| ==> NoSeparator(seps, SplitAt(seps, s)[i])
  {
    if s != [] {
      SplitAtPieces(seps, s[1..]);
      var tail := SplitAt(seps, s[1..]);
      var r := SplitAt(seps, s);
      forall i | 0 <= i < |r|
        ensures NoSeparator(seps, r[i])
      {
        if i > 0 {
          assert r[i] == tail[i - (if s[0] in seps then 1 else 0)];
        } else if s[0] !in seps {
          assert r[0] == [s[0]] + tail[0];
          assert NoSeparator(seps, tail[0]);
        }
      }
    }
  }

  /** `ss` without its empty strings. */
  function NonEmpty(ss: seq<string>): (r: seq<string>)
    ensures forall i :: 0 <= i < |r| ==> r[i] != []
  {
    if ss == [] then []
    else if ss[0] == [] then NonEmpty(ss[1..])
    else [ss[0]] + NonEmpty(ss[1..])
  }

  function Emit(o: Option<string>): seq<string>
  {
    match o
    case None => []
    case Some(x) => [x]
  }

  /** What the tokenizer yields from `src` on, when the current call has
      already read the run `buf`. */
  function TokensFrom(seps: seq<char>, src: seq<ReadItem>, buf: string): Stream<string>
  {
    var st := Scan(seps, src, buf);
    match st.out
    case Err(e) => Stream([], Some(e))
    case Ok(o) =>
      var rest := All(Tokenizer(seps, st.state));
      Stream(Emit(o) + rest.items, rest.fault)
  }

  lemma AllIsTokensFrom(seps: seq<char>, src: seq<ReadItem>)
    ensures All(Tokenizer(seps, src)) == TokensFrom(seps, src, [])
  {
    var t := Tokenizer(seps, src);
    if Next(t).out == Ok(None) {
      assert Next(t).state.chars == [];
      assert Next(Next(t).state).out == Ok(None);
    }
  }

  /** The first piece of `pieces` prefixed with the run `buf` already read. */
  function Glue(buf: string, pieces: seq<string>): seq<string>
    requires |pieces| > 0
  {
    [buf + pieces[0]] + pieces[1..]
  }

  lemma TokensFromEnd(seps: seq<char>, buf: string)
    ensures TokensFrom(seps, [], buf) == Stream(NonEmpty(Glue(buf, SplitAt(seps, []))), None)
  {
    assert buf + [] == buf;
    assert Glue(buf, [[]]) == [buf];
    assert Next(Tokenizer(seps, [])).out == Ok(None);
  }

  lemma TokensFromSeparator(seps: seq<char>, s: string, buf: string)
    requires s != [] && s[0] in seps
    requires TokensFrom(seps, FromText(s[1..]), [])
             == Stream(NonEmpty(Glue([], SplitAt(seps, s[1..]))), None)
    ensures TokensFrom(seps, FromText(s), buf) == Stream(NonEmpty(Glue(buf, SplitAt(seps, s))), None)
  {
    var tail := SplitAt(seps, s[1..]);
    assert [] + tail[0] == tail[0];
    assert Glue([], tail) == tail;
    var pieces := [[]] + tail;
    assert SplitAt(seps, s) == pieces;
    assert pieces[0] == [] && pieces[1..] == tail;
    assert FromText(s) == [Char(s[0])] + FromText(s[1..]);
    if buf != [] {
      TokensFromEndOfRun(seps, s, buf, tail);
    } else {
      TokensFromSkip(seps, s, tail);
    }
  }

  lemma TokensFromEndOfRun(seps: seq<char>, s: string, buf: string, tail: seq<string>)
    requires s != [] && s[0] in seps && buf != []
    requires FromText(s) == [Char(s[0])] + FromText(s[1..])
    requires SplitAt(seps, s) == [[]] + tail
    requires TokensFrom(seps, FromText(s[1..]), []) == Stream(NonEmpty(tail), None)
    ensures TokensFrom(seps, FromText(s), buf) == Stream(NonEmpty(Glue(buf, SplitAt(seps, s))), None)
  {
    var src' := FromText(s[1..]);
    assert buf + [] == buf;
    assert Glue(buf, [[]] + tail) == [buf] + tail;
    assert Scan(seps, FromText(s), buf) == Step(Ok(Some(buf)), src');
    AllIsTokensFrom(seps, src');
    assert NonEmpty([buf] + tail) == [buf] + NonEmpty(tail);
  }

  lemma TokensFromSkip(seps: seq<char>, s: string, tail: seq<string>)
    requires s != [] && s[0] in seps
    requires FromText(s) == [Char(s[0])] + FromText(s[1..])
    requires SplitAt(seps, s) == [[]] + tail
    requires TokensFrom(seps, FromText(s[1..]), []) == Stream(NonEmpty(tail), None)
    ensures TokensFrom(seps, FromText(s), []) == Stream(NonEmpty(Glue([], SplitAt(seps, s))), None)
  {
    assert Scan(seps, FromText(s), []) == Scan(seps, FromText(s[1..]), []);
    var empty: string := [];
    assert empty + [] == empty;
    assert Glue([], [[]] + tail) == [[]] + tail;
    assert NonEmpty([[]] + tail) == NonEmpty(tail);
  }

  lemma TokensFromChar(seps: seq<char>, s: string, buf: string)
    requires s != [] && s[0] !in seps
    requires TokensFrom(seps, FromText(s[1..]), buf + [s[0]])
             == Stream(NonEmpty(Glue(buf + [s[0]], SplitAt(seps, s[1..]))), None)
    ensures TokensFrom(seps, FromText(s), buf) == Stream(NonEmpty(Glue(buf, SplitAt(seps, s))), None)
  {
    var tail := SplitAt(seps, s[1..]);
    var src := FromText(s);
    assert src == [Char(s[0])] + FromText(s[1..]);
    assert src[0] == Char(s[0]) && src[1..] == FromText(s[1..]);
    assert Scan(seps, src, buf) == Scan(seps, FromText(s[1..]), buf + [s[0]]);
    assert TokensFrom(seps, src, buf) == TokensFrom(seps, FromText(s[1..]), buf + [s[0]]);
    GlueChar(seps, s, buf);
  }

  /** A character that is not a separator joins the run before it. */
  lemma GlueChar(seps: seq<char>, s: string, buf: string)
    requires s != [] && s[0] !in seps
    ensures Glue(buf, SplitAt(seps, s)) == Glue(buf + [s[0]], SplitAt(seps, s[1..]))
  {
    var tail := SplitAt(seps, s[1..]);
    assert SplitAt(seps, s) == [[s[0]] + tail[0]] + tail[1..];
    assert buf + ([s[0]] + tail[0]) == (buf + [s[0]]) + tail[0];
  }

  lemma {:induction false} ScanThenAll(seps: seq<char>, s: string, buf: string)
    ensures TokensFrom(seps, FromText(s), buf) == Stream(NonEmpty(Glue(buf, SplitAt(seps, s))), None)
    decreases |s|
  {
    if s == [] {
      TokensFromEnd(seps, buf);
    } else if s[0] in seps {
      ScanThenAll(seps, s[1..], []);
      TokensFromSeparator(seps, s, buf);
    } else {
      ScanThenAll(seps, s[1..], buf + [s[0]]);
      TokensFromChar(seps, s, buf);
    }
  }

  /** The tokens of a fault-free text are exactly its non-empty pieces between
      separators, in order, and the stream ends without an error. */
  lemma AllIsSplit(seps: seq<char>, s: string)
    ensures All(New(FromText(s), seps)) == Stream(NonEmpty(SplitAt(seps, s)), None)
  {
    ScanThenAll(seps, s, []);
    AllIsTokensFrom(seps, FromText(s));
    var pieces := SplitAt(seps, s);
    assert [] + pieces[0] == pieces[0];
    assert Glue([], pieces) == pieces;
  }

  lemma {:induction false} ConcatNonEmpty(ss: seq<string>)
    ensures Concat(NonEmpty(ss)) == Concat(ss)
  {
    if ss != [] {
      ConcatNonEmpty(ss[1..]);
      if ss[0] == [] {
        assert NonEmpty(ss) == NonEmpty(ss[1..]);
        assert Concat(ss) == Concat(ss[1..]);
      } else {
        var n := NonEmpty(ss[1..]);
        assert NonEmpty(ss) == [ss[0]] + n;
        assert ([ss[0]] + n)[1..] == n;
      }
    }
  }

  lemma {:induction false} ConcatSplitAt(seps: seq<char>, s: string)
    ensures Concat(SplitAt(seps, s)) == Strip(seps, s)
  {
    if s != [] {
      ConcatSplitAt(seps, s[1..]);
      var tail := SplitAt(seps, s[1..]);
      if s[0] in seps {
        assert ([[]] + tail)[1..] == tail;
      } else {
        var pieces := [[s[0]] + tail[0]] + tail[1..];
        assert pieces[1..] == tail[1..];
        assert Concat(tail) == tail[0] + Concat(tail[1..]);
      }
    }
  }

  /** Character conservation: the tokens of a fault-free text, written one
      after another, are the text with every separator removed. */
  lemma AllKeepsText(seps: seq<char>, s: string)
    ensures Concat(All(New(FromText(s), seps)).items) == Strip(seps, s)
  {
    AllIsSplit(seps, s);
    ConcatNonEmpty(SplitAt(seps, s));
    ConcatSplitAt(seps, s);
  }

  /** The tokens of any source without a failed read are the pieces of its
      characters between separators, and together they are those characters
      with the separators removed: such a source is the reader over its own
      characters. */
  lemma SourceIsSplit(seps: seq<char>, src: seq<ReadItem>)
    requires FaultFree(src)
    ensures All(New(src, seps)) == Stream(NonEmpty(SplitAt(seps, Io.Text(src))), None)
    ensures Concat(All(New(src, seps)).items) == Strip(seps, Io.Text(src))
  {
    AllIsSplit(seps, Io.Text(src));
    AllKeepsText(seps, Io.Text(src));
  }

  /** One step of `SplitAt` on a text given as its first character and the rest. */
  lemma SplitAtCons(seps: seq<char>, x: char, rest: string)
    ensures var tail := SplitAt(seps, rest);
            SplitAt(seps, [x] + rest)
            == if x in seps then [[]] + tail else [[x] + tail[0]] + tail[1..]
  {
    assert ([x] + rest)[1..] == rest;
  }

  lemma GlueAppend(x: char, left: seq<string>, right: seq<string>)
    requires |left| > 0
    ensures [[x] + (left + right)[0]] + (left + right)[1..] == ([[x] + left[0]] + left[1..]) + right
  {
    assert (left + right)[1..] == left[1..] + right;
  }

  /** Splitting a text at a separator character splits it into the pieces of
      the two sides. */
  lemma {:induction false} SplitAtAppend(seps: seq<char>, a: string, c: char, b: string)
    requires c in seps
    ensures SplitAt(seps, a + [c] + b) == SplitAt(seps, a) + SplitAt(seps, b)
    decreases |a|
  {
    if a == [] {
      assert a + [c] + b == [c] + b;
      SplitAtCons(seps, c, b);
    } else {
      SplitAtAppend(seps, a[1..], c, b);
      SplitAtAppendStep(seps, a, c, b);
    }
  }

  lemma SplitAtAppendStep(seps: seq<char>, a: string, c: char, b: string)
    requires a != []
    requires SplitAt(seps, a[1..] + [c] + b) == SplitAt(seps, a[1..]) + SplitAt(seps, b)
    ensures SplitAt(seps, a + [c] + b) == SplitAt(seps, a) + SplitAt(seps, b)
  {
    var t := a[1..] + [c] + b;
    assert a + [c] + b == [a[0]] + t;
    assert a == [a[0]] + a[1..];
    SplitAtCons(seps, a[0], t);
    SplitAtCons(seps, a[0], a[1..]);
    var left := SplitAt(seps, a[1..]);
    var right := SplitAt(seps, b);
    if a[0] !in seps {
      GlueAppend(a[0], left, right);
    } else {
      ConsAppend([], left, right);
    }
  }

  lemma ConsAppend<T>(x: T, left: seq<T>, right: seq<T>)
    ensures [x] + (left + right) == ([x] + left) + right
  {
  }

  lemma {:induction false} NonEmptyAppend(x: seq<string>, y: seq<string>)
    ensures NonEmpty(x + y) == NonEmpty(x) + NonEmpty(y)
    decreases |x|
  {
    if x == [] {
      assert x + y == y;
    } else {
      NonEmptyAppend(x[1..], y);
      assert (x + y)[0] == x[0];
      assert (x + y)[1..] == x[1..] + y;
    }
  }

  /** A run of separators at the start of a text yields no token. */
  lemma {:induction false} LeadingGap(seps: seq<char>, g: string, b: string)
    requires OnlySeparators(seps, g)
    ensures NonEmpty(SplitAt(seps, g + b)) == NonEmpty(SplitAt(seps, b))
    decreases |g|
  {
    if g != [] {
      LeadingGap(seps, g[1..], b);
      var s := g + b;
      assert s[0] == g[0];
      assert s[1..] == g[1..] + b;
      var tail := SplitAt(seps, s[1..]);
      assert ([[]] + tail)[1..] == tail;
    } else {
      assert g + b == b;
    }
  }

  /** A non-empty run of separators inside a text separates the tokens of the
      two sides and yields none of its own. */
  lemma GapSplit(seps: seq<char>, a: string, g: string, b: string)
    requires g != [] && OnlySeparators(seps, g)
    ensures NonEmpty(SplitAt(seps, a + g + b)) == NonEmpty(SplitAt(seps, a)) + NonEmpty(SplitAt(seps, b))
  {
    assert a + g + b == a + [g[0]] + (g[1..] + b);
    SplitAtAppend(seps, a, g[0], g[1..] + b);
    NonEmptyAppend(SplitAt(seps, a), SplitAt(seps, g[1..] + b));
    LeadingGap(seps, g[1..], b);
  }

  /** A text without separators is a single piece. */
  lemma {:induction false} SplitAtWhole(seps: seq<char>, w: string)
    requires NoSeparator(seps, w)
    ensures SplitAt(seps, w) == [w]
    decreases |w|
  {
    if w != [] {
      SplitAtWhole(seps, w[1..]);
      assert [w[0]] + w[1..] == w;
    }
  }

  /** A non-empty text without separators is one token. */
  lemma SplitAtWord(seps: seq<char>, w: string)
    requires w != [] && NoSeparator(seps, w)
    ensures NonEmpty(SplitAt(seps, w)) == [w]
  {
    SplitAtWhole(seps, w);
    assert [w][1..] == [];
  }

  /** Words joined by single spaces, with the space a separator, split back
      into exactly those words: the tokenization inverts `Unwords`. */
  lemma {:induction false} UnwordsSplit(seps: seq<char>, ws: seq<string>)
    requires ' ' in seps && Words(seps, ws)
    ensures NonEmpty(SplitAt(seps, Unwords(ws))) == ws
    decreases |ws|
  {
    if |ws| == 0 {
      assert SplitAt(seps, []) == [[]];
    } else if |ws| == 1 {
      SplitAtWord(seps, ws[0]);
    } else {
      UnwordsSplit(seps, ws[1..]);
      SplitAtWord(seps, ws[0]);
      GapSplit(seps, ws[0], " ", Unwords(ws[1..]));
      assert ws == [ws[0]] + ws[1..];
    }
  }
}
