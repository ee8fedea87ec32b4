/** The sentence-termination rules of `SentenceSplitter::next` (src/lib.rs),
    stated over tokens alone. `Decide` is the rule applied to one token,
    checked in the fixed priority order of the source; `Take` is one call of
    the splitter run over a list of tokens instead of a live tokenizer, and
    `Cut` the whole iteration. The splitter of `Splitter` is proved to
    follow these definitions on every fault-free source. */
module Sentences {
  import opened Io
  import opened Text

  /** The terminator strings and the quote strings, both in caller order. */
  datatype Config = Config(terminators: seq<string>, quotes: seq<string>)

  /** What the splitter does after appending a token: return the sentence, or
      append a space and keep reading with the given open quote (`None` when
      no quote is open). */
  datatype Decision = Close | Continue(quote: Option<string>)

  /** `quotes.iter().find(|q| s.starts_with(q))`: the first quote string, in
      list order, that `s` starts with. */
  function FirstPrefix(quotes: seq<string>, s: string): (r: Option<string>)
    ensures r.None? <==> forall i :: 0 <= i < |quotes| ==> !StartsWith(s, quotes[i])
    ensures r.Some? ==>
              exists i :: 0 <= i < |quotes| && quotes[i] == r.value && StartsWith(s, quotes[i])
                          && forall j :: 0 <= j < i ==> !StartsWith(s, quotes[j])
  {
    if quotes == [] then None
    else if StartsWith(s, quotes[0]) then Some(quotes[0])
    else
      var r := FirstPrefix(quotes[1..], s);
      if r.Some? then
        ghost var i :| 0 <= i < |quotes[1..]| && quotes[1..][i] == r.value && StartsWith(s, quotes[1..][i])
                       && forall j :: 0 <= j < i ==> !StartsWith(s, quotes[1..][j]);
        assert quotes[i + 1] == r.value;
        assert forall j :: 0 <= j < i + 1 ==> !StartsWith(s, quotes[j]) by {
          forall j | 0 <= j < i + 1
            ensures !StartsWith(s, quotes[j])
          {
            if j > 0 {
              assert quotes[j] == quotes[1..][j - 1];
            }
          }
        }
        r
      else
        assert forall i :: 0 <= i < |quotes| ==> !StartsWith(s, quotes[i]) by {
          forall i | 0 <= i < |quotes|
            ensures !StartsWith(s, quotes[i])
          {
            if i > 0 {
              assert quotes[i] == quotes[1..][i - 1];
            }
          }
        }
        r
  }

  /** The rule applied to the token `s` just appended, with `quote` open (or
      none), in the order of the source: an open quote is closed only by a
      token ending with it; otherwise a token starting with a quote string
      opens it, or closes at once if it also ends with it; otherwise a token
      ending in ".." continues; otherwise a token ending with a terminator
      closes. An open quote is never the empty string, since every token ends
      with it. */
  function Decide(cfg: Config, quote: Option<string>, s: string): (d: Decision)
    ensures quote.None? && d.Continue? && d.quote.Some? ==> d.quote.value != []
  {
    match quote
    case Some(q) =>
      if EndsWith(s, q) then Close else Continue(quote)
    case None =>
      match FirstPrefix(cfg.quotes, s)
      case Some(q) =>
        if EndsWith(s, q) then Close else Continue(Some(q))
      case None =>
        if EndsWith(s, "..") then Continue(None)
        else if EndsWithAny(cfg.terminators, s) then Close
        else Continue(None)
  }

  /** The termination rules, one property each. */
  lemma DecideRules(cfg: Config, quote: Option<string>, s: string)
    // Inside a quote, only that quote at the end of the token closes the
    // sentence; terminators and ".." play no part, and the quote stays open.
    ensures quote.Some? ==> (Decide(cfg, quote, s) == Close <==> EndsWith(s, quote.value))
    ensures quote.Some? && Decide(cfg, quote, s) != Close ==> Decide(cfg, quote, s) == Continue(quote)
    // A token starting with the first matching quote string closes at once when
    // it also ends with it, and otherwise opens that quote.
    ensures quote.None? && FirstPrefix(cfg.quotes, s).Some? ==>
              var q := FirstPrefix(cfg.quotes, s).value;
              && (Decide(cfg, quote, s) == Close <==> EndsWith(s, q))
              && (Decide(cfg, quote, s) != Close ==> Decide(cfg, quote, s) == Continue(Some(q)))
    // Outside a quote, a token ending in ".." never closes the sentence, even
    // when "." is a terminator, unless it is a self-contained quoted token.
    ensures quote.None? && EndsWith(s, "..") && Decide(cfg, quote, s) == Close ==>
              FirstPrefix(cfg.quotes, s).Some? && EndsWith(s, FirstPrefix(cfg.quotes, s).value)
    // Outside a quote, a token that starts with no quote string and does not
    // end in ".." closes exactly when it ends with some terminator, and
    // otherwise leaves the sentence open with no quote.
    ensures quote.None? && FirstPrefix(cfg.quotes, s).None? && !EndsWith(s, "..") ==>
              (Decide(cfg, quote, s) == Close <==> EndsWithAny(cfg.terminators, s))
    ensures quote.None? && FirstPrefix(cfg.quotes, s).None? && Decide(cfg, quote, s) != Close ==>
              Decide(cfg, quote, s) == Continue(None)
  {
  }

  /** The outcome of one splitter call over a token list: the sentence (none
      when there was nothing to read) and the tokens left for the next call. */
  datatype Gathered = Gathered(sentence: Option<string>, rest: seq<string>)

  /** One call of the splitter over the tokens `ts`, having accumulated
      `current` so far with `quote` open. */
  function Take(cfg: Config, ts: seq<string>, current: string, quote: Option<string>): (g: Gathered)
    ensures IsSuffix(g.rest, ts)
    ensures g.sentence.None? <==> current == [] && ts == []
    ensures g.sentence.Some? ==> StartsWith(g.sentence.value, current)
    ensures ts != [] ==> StartsWith(g.sentence.value, current + ts[0])
    decreases |ts|
  {
    if ts == [] then
      Gathered(if |current| != 0 then Some(current) else None, [])
    else
      var cur := current + ts[0];
      match Decide(cfg, quote, ts[0])
      case Close => Gathered(Some(cur), ts[1..])
      case Continue(q) => Take(cfg, ts[1..], cur + " ", q)
  }

  /** The quote state in force when `ts[j]` is examined, starting from `quote`,
      provided no earlier token closed the sentence. */
  function QuoteFrom(cfg: Config, quote: Option<string>, ts: seq<string>, j: nat): Option<string>
    requires j <= |ts|
    decreases j
  {
    if j == 0 then quote
    else
      match Decide(cfg, quote, ts[0])
      case Close => None
      case Continue(q) => QuoteFrom(cfg, q, ts[1..], j - 1)
  }

  /** The rule fires on `ts[j]`. */
  predicate ClosesAt(cfg: Config, quote: Option<string>, ts: seq<string>, j: nat)
    requires j < |ts|
  {
    Decide(cfg, QuoteFrom(cfg, quote, ts, j), ts[j]) == Close
  }

  /** No rule fires on any of the first `n` tokens. */
  predicate OpenThrough(cfg: Config, quote: Option<string>, ts: seq<string>, n: nat)
    requires n <= |ts|
  {
    forall j :: 0 <= j < n ==> !ClosesAt(cfg, quote, ts, j)
  }

  lemma ClosesAtStep(cfg: Config, quote: Option<string>, ts: seq<string>, j: nat)
    requires 0 < j < |ts| && Decide(cfg, quote, ts[0]).Continue?
    ensures ClosesAt(cfg, quote, ts, j)
            <==> ClosesAt(cfg, Decide(cfg, quote, ts[0]).quote, ts[1..], j - 1)
  {
    assert ts[j] == ts[1..][j - 1];
  }

  lemma OpenThroughStep(cfg: Config, quote: Option<string>, ts: seq<string>, n: nat)
    requires 0 < n <= |ts| && Decide(cfg, quote, ts[0]).Continue?
    ensures OpenThrough(cfg, quote, ts, n)
            <==> OpenThrough(cfg, Decide(cfg, quote, ts[0]).quote, ts[1..], n - 1)
  {
    var q := Decide(cfg, quote, ts[0]).quote;
    assert !ClosesAt(cfg, quote, ts, 0);
    forall j | 0 < j < n
      ensures ClosesAt(cfg, quote, ts, j) <==> ClosesAt(cfg, q, ts[1..], j - 1)
    {
      ClosesAtStep(cfg, quote, ts, j);
    }
    if OpenThrough(cfg, q, ts[1..], n - 1) {
      forall j | 0 <= j < n
        ensures !ClosesAt(cfg, quote, ts, j)
      {
        if j > 0 {
          assert !ClosesAt(cfg, q, ts[1..], j - 1);
        }
      }
    }
    if OpenThrough(cfg, quote, ts, n) {
      forall j | 0 <= j < n - 1
        ensures !ClosesAt(cfg, q, ts[1..], j)
      {
        assert !ClosesAt(cfg, quote, ts, j + 1);
      }
    }
  }

  lemma SpacedStep(ts: seq<string>, k: nat)
    requires 0 < k <= |ts|
    ensures Spaced(ts[..k]) == ts[0] + " " + Spaced(ts[1..][..k - 1])
  {
    assert ts[..k][1..] == ts[1..][..k - 1];
  }

  /** `g` is the outcome of a call that consumed the tokens up to and
      including the first one on which a rule fires, the sentence being the
      accumulated text followed by those tokens, each but the last followed by
      one space; or, when no rule fires, one that consumed every token, the
      sentence ending with a space after the last token (and absent when there
      was nothing at all). */
  predicate Shape(cfg: Config, ts: seq<string>, current: string, quote: Option<string>, g: Gathered)
  {
    && |g.rest| <= |ts|
    && var n := |ts| - |g.rest|;
       && g.rest == ts[n..]
       && (|| (&& 0 < n
               && OpenThrough(cfg, quote, ts, n - 1)
               && ClosesAt(cfg, quote, ts, n - 1)
               && g.sentence == Some(current + Spaced(ts[..n - 1]) + ts[n - 1]))
           || (&& n == |ts|
               && OpenThrough(cfg, quote, ts, |ts|)
               && g.sentence == if current + Spaced(ts) == [] then None else Some(current + Spaced(ts))))
  }

  lemma ShapeClosedLater(cfg: Config, ts: seq<string>, current: string, quote: Option<string>, g: Gathered)
    requires ts != [] && Decide(cfg, quote, ts[0]).Continue?
    requires var n := |ts| - |g.rest|;
             && 1 < n <= |ts| && g.rest == ts[n..]
             && OpenThrough(cfg, Decide(cfg, quote, ts[0]).quote, ts[1..], n - 2)
             && ClosesAt(cfg, Decide(cfg, quote, ts[0]).quote, ts[1..], n - 2)
             && g.sentence == Some(current + ts[0] + " " + Spaced(ts[1..][..n - 2]) + ts[1..][n - 2])
    ensures Shape(cfg, ts, current, quote, g)
  {
    var n := |ts| - |g.rest|;
    ClosesAtStep(cfg, quote, ts, n - 1);
    OpenThroughStep(cfg, quote, ts, n - 1);
    SpacedStep(ts, n - 1);
    assert ts[1..][n - 2] == ts[n - 1];
    assert current + Spaced(ts[..n - 1]) + ts[n - 1]
        == current + ts[0] + " " + Spaced(ts[1..][..n - 2]) + ts[1..][n - 2];
  }

  lemma ShapeNeverClosed(cfg: Config, ts: seq<string>, current: string, quote: Option<string>, g: Gathered)
    requires ts != [] && Decide(cfg, quote, ts[0]).Continue?
    requires && g.rest == []
             && OpenThrough(cfg, Decide(cfg, quote, ts[0]).quote, ts[1..], |ts| - 1)
             && var c := current + ts[0] + " " + Spaced(ts[1..]);
                g.sentence == if c == [] then None else Some(c)
    ensures Shape(cfg, ts, current, quote, g)
  {
    OpenThroughStep(cfg, quote, ts, |ts|);
    assert Spaced(ts) == ts[0] + " " + Spaced(ts[1..]);
    assert current + Spaced(ts) == current + ts[0] + " " + Spaced(ts[1..]);
    assert ts[|ts|..] == [];
  }

  lemma ShapeClosedFirst(cfg: Config, ts: seq<string>, current: string, quote: Option<string>)
    requires ts != [] && Decide(cfg, quote, ts[0]) == Close
    ensures Shape(cfg, ts, current, quote, Take(cfg, ts, current, quote))
  {
    var g := Take(cfg, ts, current, quote);
    assert g == Gathered(Some(current + ts[0]), ts[1..]);
    assert ClosesAt(cfg, quote, ts, 0);
    assert ts[..0] == [];
    assert Spaced(ts[..0]) == [];
    assert current + Spaced(ts[..0]) + ts[0] == current + ts[0];
  }

  /** Every splitter call over a token list has the shape described by `Shape`. */
  lemma {:induction false} TakeShape(cfg: Config, ts: seq<string>, current: string, quote: Option<string>)
    ensures Shape(cfg, ts, current, quote, Take(cfg, ts, current, quote))
    decreases |ts|
  {
    if ts != [] {
      var d := Decide(cfg, quote, ts[0]);
      if d == Close {
        ShapeClosedFirst(cfg, ts, current, quote);
      } else {
        var cur := current + ts[0] + " ";
        var g := Take(cfg, ts[1..], cur, d.quote);
        TakeShape(cfg, ts[1..], cur, d.quote);
        var n := |ts| - |g.rest|;
        assert ts[1..][n - 1..] == ts[n..];
        if n > 1 && ClosesAt(cfg, d.quote, ts[1..], n - 2) {
          ShapeClosedLater(cfg, ts, current, quote, g);
        } else {
          ShapeNeverClosed(cfg, ts, current, quote, g);
        }
      }
    } else {
      assert current + Spaced(ts) == current;
      assert ts[0..] == ts;
    }
  }

  /** Every sentence the splitter yields over the tokens `ts`. */
  function Cut(cfg: Config, ts: seq<string>): (r: seq<string>)
    ensures (forall i :: 0 <= i < |ts| ==> ts[i] != []) ==> forall i :: 0 <= i < |r| ==> r[i] != []
    ensures ts != [] ==> |r| > 0
    decreases |ts|
  {
    var g := Take(cfg, ts, [], None);
    match g.sentence
    case None => []
    case Some(x) =>
      if |g.rest| < |ts| then [x] + Cut(cfg, g.rest)
      else [x]
  }

  /** Outside a quote, `ws` makes one sentence: no rule fires on any word but
      the last, and a rule fires on the last. */
  predicate OneSentence(cfg: Config, ws: seq<string>)
  {
    && ws != []
    && (forall j :: 0 <= j < |ws| - 1 ==> Decide(cfg, None, ws[j]) == Continue(None))
    && Decide(cfg, None, ws[|ws| - 1]) == Close
  }

  /** A word on which a rule fires is a sentence by itself. */
  lemma OneSentenceLast(cfg: Config, w: string)
    requires Decide(cfg, None, w) == Close
    ensures OneSentence(cfg, [w])
  {
  }

  /** A word on which no rule fires, put in front of one sentence. */
  lemma OneSentenceCons(cfg: Config, w: string, ws: seq<string>)
    requires Decide(cfg, None, w) == Continue(None) && OneSentence(cfg, ws)
    ensures OneSentence(cfg, [w] + ws)
  {
    var vs := [w] + ws;
    forall j | 0 <= j < |vs| - 1
      ensures Decide(cfg, None, vs[j]) == Continue(None)
    {
      if j > 0 {
        assert vs[j] == ws[j - 1];
      }
    }
    assert vs[|vs| - 1] == ws[|ws| - 1];
  }

  /** Outside a quote, the words of one sentence are taken as a sentence: the
      words with single spaces between them. */
  lemma {:induction false} TakeWords(cfg: Config, ws: seq<string>, rest: seq<string>, current: string)
    requires OneSentence(cfg, ws)
    ensures Take(cfg, ws + rest, current, None) == Gathered(Some(current + Unwords(ws)), rest)
    decreases |ws|
  {
    var ts := ws + rest;
    assert ts[0] == ws[0];
    assert ts[1..] == ws[1..] + rest;
    if |ws| > 1 {
      assert OneSentence(cfg, ws[1..]) by {
        assert ws[1..][|ws| - 2] == ws[|ws| - 1];
        forall j | 0 <= j < |ws| - 2
          ensures Decide(cfg, None, ws[1..][j]) == Continue(None)
        {
          assert ws[1..][j] == ws[j + 1];
        }
      }
      TakeWords(cfg, ws[1..], rest, current + ws[0] + " ");
      assert current + ws[0] + " " + Unwords(ws[1..]) == current + (ws[0] + " " + Unwords(ws[1..]));
    }
  }

  /** The words of one sentence are the next sentence of the iteration. */
  lemma CutWords(cfg: Config, ws: seq<string>, rest: seq<string>)
    requires OneSentence(cfg, ws)
    ensures Cut(cfg, ws + rest) == [Unwords(ws)] + Cut(cfg, rest)
  {
    TakeWords(cfg, ws, rest, []);
    assert [] + Unwords(ws) == Unwords(ws);
  }

  /** While a quote is open, tokens that do not end with it are accumulated,
      each followed by one space, to the end of the input: the sentence then
      returned ends with a space. */
  lemma {:induction false} TakeInQuote(cfg: Config, q: string, ws: seq<string>, current: string)
    requires current != []
    requires forall j :: 0 <= j < |ws| ==> !EndsWith(ws[j], q)
    ensures Take(cfg, ws, current, Some(q)) == Gathered(Some(current + Spaced(ws)), [])
    decreases |ws|
  {
    if ws != [] {
      forall j | 0 <= j < |ws| - 1
        ensures !EndsWith(ws[1..][j], q)
      {
        assert ws[1..][j] == ws[j + 1];
      }
      TakeInQuote(cfg, q, ws[1..], current + ws[0] + " ");
      assert current + ws[0] + " " + Spaced(ws[1..]) == current + Spaced(ws);
    } else {
      assert current + Spaced(ws) == current;
    }
  }
}
