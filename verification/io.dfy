/** The character source both tokenizers read from, and the result types their
    `next` operations return. The reader of the library revision yields, per
    character, either the character or a `CharsError`; here the whole source is
    an immutable sequence of such read items, consumed from the front. */
module Io {

  /** The conventional Some/None datatype. */
  datatype Option<+T> = None | Some(value: T)

  /** The two ways the character adaptor of a reader fails: the bytes were not
      valid UTF-8, or the reader underneath reported an I/O error (identified
      here only by an opaque code). */
  datatype CharsError = NotUtf8 | Other(code: int)

  /** What every `next` of the library returns: a value, or the read error
      that aborted the call. */
  datatype Result<+T> = Ok(value: T) | Err(error: CharsError)

  /** One read from the character source. */
  datatype ReadItem = Char(c: char) | Fault(error: CharsError)

  /** The outcome of one `next` call together with the state the call leaves
      behind: `out` is the value handed to the caller, `state` what the next
      call starts from. */
  datatype Step<+T, +S> = Step(out: Result<Option<T>>, state: S)

  /** Everything an iterator yields until it stops: the values in order, and the
      read error that stopped it, if one did. */
  datatype Stream<+T> = Stream(items: seq<T>, fault: Option<CharsError>)

  /** The source a fault-free reader over the text `s` yields. */
  function FromText(s: string): (r: seq<ReadItem>)
    ensures |r| == |s|
  {
    if s == [] then [] else [Char(s[0])] + FromText(s[1..])
  }

  /** No read of `src` fails. */
  predicate FaultFree(src: seq<ReadItem>)
  {
    forall i :: 0 <= i < |src| ==> src[i].Char?
  }

  /** A reader over a text never fails. */
  lemma {:induction false} FromTextFaultFree(s: string)
    ensures FaultFree(FromText(s))
  {
    if s != [] {
      FromTextFaultFree(s[1..]);
      var r := FromText(s);
      assert r == [Char(s[0])] + FromText(s[1..]);
      forall i | 0 <= i < |r|
        ensures r[i].Char?
      {
        if i > 0 {
          assert r[i] == FromText(s[1..])[i - 1];
        }
      }
    }
  }

  /** The characters of a fault-free source. */
  function Text(src: seq<ReadItem>): (s: string)
    requires FaultFree(src)
    ensures FromText(s) == src
  {
    if src == [] then [] else [src[0].c] + Text(src[1..])
  }

  /** `tail` is what is left of `src` after some reads from its front. */
  predicate IsSuffix<T(==)>(tail: seq<T>, src: seq<T>)
  {
    |tail| <= |src| && tail == src[|src| - |tail|..]
  }

  lemma SuffixFaultFree(tail: seq<ReadItem>, src: seq<ReadItem>)
    requires IsSuffix(tail, src) && FaultFree(src)
    ensures FaultFree(tail)
  {
    forall i | 0 <= i < |tail|
      ensures tail[i].Char?
    {
      assert tail[i] == src[|src| - |tail| + i];
    }
  }
}
