/**
 * The token streamer of the streaming chat window (LLM_2.py:322-401) and the line
 * wrapper of its display (LLM_2.py:282-294).
 *
 * Every `put` turns the decoded text of the newest tokens into UTF-8 bytes, appends
 * them to a byte buffer and tries a strict decode: on success the text joins the text
 * buffer and the byte buffer is emptied, on failure at most the last three bytes are
 * kept. At most every 0.1 s, and once at the end, the text buffer is cleaned of chat
 * markers and sent; a non-final send keeps only a short tail of it.
 */
module SafeStream {
  import opened Wrappers
  import Utf8
  import PyStr

  type byte = Utf8.byte

  /** The `token_ids` given to `put`: a flat list of ids, or a batch whose first row is used. */
  datatype TokenIds = Flat(ids: seq<int>) | Nested(first: seq<int>, others: seq<seq<int>>)
  {
    function Row(): seq<int>
    {
      match this
      case Flat(ids) => ids
      case Nested(first, _) => first
    }
  }

  /** One item put on the output queue: the text and whether it is the final one. */
  datatype Update = Update(text: string, final: bool)

  /** Outcome of one decode attempt: the decoded text, if any, and the new byte buffer. */
  datatype Fed = Fed(text: Option<string>, rest: seq<byte>)
  {
    function Texts(): seq<string>
    {
      if text.Some? then [text.value] else []
    }
  }

  function Min(a: int, b: int): int { if a < b then a else b }

  /**
   * Appending `bytes` to the buffer and trying `decode('utf-8')`: either all of it
   * decodes (to the text whose encoding it is) and the buffer is emptied, or it is not
   * well-formed UTF-8 and the buffer keeps its last min(3, len) bytes.
   */
  function Feed(buffer: seq<byte>, bytes: seq<byte>): (r: Fed)
    ensures r.text.Some? <==> Utf8.Valid(buffer + bytes)
    ensures r.text.Some? ==> Utf8.Encode(r.text.value) == buffer + bytes && r.rest == []
    ensures r.text.None? ==>
      && |r.rest| == Min(3, |buffer + bytes|)
      && r.rest == (buffer + bytes)[|buffer + bytes| - |r.rest|..]
  {
    var b := buffer + bytes;
    if Utf8.Valid(b) then
      Utf8.DecodeEncode(b);
      Fed(Some(Utf8.Decode(b)), [])
    else
      Fed(None, PyStr.TailSlice(b, Min(3, |b|)))
  }

  /** Starting from an empty byte buffer, the encoding of a text always decodes, to that text. */
  lemma FeedFromEmpty(t: string)
    ensures Feed([], Utf8.Encode(t)) == Fed(Some(t), [])
  {
    Utf8.EncodeDecode(t);
    assert [] + Utf8.Encode(t) == Utf8.Encode(t);
  }

  /** Feeding `bytes` one byte per `put`: the texts decoded along the way and the final buffer. */
  function FeedBytes(buffer: seq<byte>, bytes: seq<byte>): (seq<string>, seq<byte>)
    decreases |bytes|
  {
    if bytes == [] then ([], buffer)
    else
      var f := Feed(buffer, [bytes[0]]);
      var next := FeedBytes(f.rest, bytes[1..]);
      (f.Texts() + next.0, next.1)
  }

  /** A proper prefix of a character's encoding is never well-formed. */
  lemma PartialCharInvalid(c: char, k: nat)
    requires 0 < k < |Utf8.EncodeChar(c)|
    ensures !Utf8.Valid(Utf8.EncodeChar(c)[..k])
  {
    var e := Utf8.EncodeChar(c);
    Utf8.EncodeCharFirst(c, []);
    assert e + [] == e;
    var p := e[..k];
    assert p[0] == e[0];
    assert Utf8.FirstLength(p) == 0;
  }

  /** A byte that does not complete the character leaves the whole partial encoding in the buffer. */
  lemma FeedPartialByte(c: char, k: nat)
    requires k + 1 < |Utf8.EncodeChar(c)|
    ensures var e := Utf8.EncodeChar(c); Feed(e[..k], [e[k]]) == Fed(None, e[..k + 1])
  {
    var e := Utf8.EncodeChar(c);
    assert e[..k] + [e[k]] == e[..k + 1];
    PartialCharInvalid(c, k + 1);
  }

  /** The byte that completes the character decodes to it and empties the buffer. */
  lemma FeedLastByte(c: char, k: nat)
    requires k + 1 == |Utf8.EncodeChar(c)|
    ensures var e := Utf8.EncodeChar(c); Feed(e[..k], [e[k]]) == Fed(Some([c]), [])
  {
    var e := Utf8.EncodeChar(c);
    assert e[..k] + [e[k]] == e == Utf8.Encode([c]);
    FeedFromEmpty([c]);
    assert [] + e == e;
  }

  /** One step of `FeedBytes`. */
  lemma FeedBytesStep(buffer: seq<byte>, b: byte, rest: seq<byte>)
    ensures var f := Feed(buffer, [b]);
            var next := FeedBytes(f.rest, rest);
            FeedBytes(buffer, [b] + rest) == (f.Texts() + next.0, next.1)
  {
    assert ([b] + rest)[0] == b && ([b] + rest)[1..] == rest;
  }

  /** Feeding the rest of one character's encoding byte by byte yields that character once its last byte arrives. */
  lemma {:induction false} FeedCharBytes(c: char, k: nat, more: seq<byte>)
    requires k < |Utf8.EncodeChar(c)|
    ensures var e := Utf8.EncodeChar(c);
            var after := FeedBytes([], more);
            FeedBytes(e[..k], e[k..] + more) == ([[c]] + after.0, after.1)
    decreases |Utf8.EncodeChar(c)| - k
  {
    var e := Utf8.EncodeChar(c);
    if k + 1 < |e| {
      assert e[k..] + more == [e[k]] + (e[k + 1..] + more);
      FeedBytesStep(e[..k], e[k], e[k + 1..] + more);
      FeedPartialByte(c, k);
      FeedCharBytes(c, k + 1, more);
      var next := FeedBytes(e[..k + 1], e[k + 1..] + more);
      assert FeedBytes(e[..k], e[k..] + more) == ([] + next.0, next.1);
      assert [] + next.0 == next.0;
    } else {
      assert e[k..] + more == [e[k]] + more;
      FeedBytesStep(e[..k], e[k], more);
      FeedLastByte(c, k);
      var next := FeedBytes([], more);
      assert FeedBytes(e[..k], e[k..] + more) == ([[c]] + next.0, next.1);
    }
  }

  /** `texts` holds the characters of `t`, one per string. */
  predicate OnePerChar(texts: seq<string>, t: string)
  {
    |texts| == |t| && forall i :: 0 <= i < |t| ==> texts[i] == [t[i]]
  }

  lemma OnePerCharCons(rest: seq<string>, t: string)
    requires t != [] && OnePerChar(rest, t[1..])
    ensures OnePerChar([[t[0]]] + rest, t)
  {
    var texts := [[t[0]]] + rest;
    forall i | 1 <= i < |t| ensures texts[i] == [t[i]] {
      assert texts[i] == rest[i - 1] == [t[1..][i - 1]];
    }
  }

  /**
   * Keeping three bytes is enough: a text whose encoding arrives one byte per call is
   * reassembled exactly, one character per completed code point, with nothing left over.
   */
  lemma {:induction false} FeedBytesReassembles(t: string)
    ensures OnePerChar(FeedBytes([], Utf8.Encode(t)).0, t)
    ensures FeedBytes([], Utf8.Encode(t)).1 == []
  {
    if t != [] {
      FeedBytesReassembles(t[1..]);
      FeedBytesFirstChar(t);
    }
  }

  /** The step of FeedBytesReassembles: from the text without its first character to the text. */
  lemma FeedBytesFirstChar(t: string)
    requires t != []
    requires OnePerChar(FeedBytes([], Utf8.Encode(t[1..])).0, t[1..])
    requires FeedBytes([], Utf8.Encode(t[1..])).1 == []
    ensures OnePerChar(FeedBytes([], Utf8.Encode(t)).0, t)
    ensures FeedBytes([], Utf8.Encode(t)).1 == []
  {
    var e := Utf8.EncodeChar(t[0]);
    var more := Utf8.Encode(t[1..]);
    assert Utf8.Encode(t) == e + more;
    assert e[..0] == [] && e[0..] == e;
    FeedCharBytes(t[0], 0, more);
    var r1 := FeedBytes([], more);
    assert FeedBytes([], Utf8.Encode(t)) == ([[t[0]]] + r1.0, r1.1);
    OnePerCharCons(r1.0, t);
  }

  /** The chat markers `_clean_text` removes, in order. */
  const Markers: seq<string> := ["<|im_end|>", "<|im_start|>", "<|endoftext|>"]

  /** `text.replace(m, "")` for each marker `m` of `markers` in turn. */
  function RemoveMarkers(text: string, markers: seq<string>): (r: string)
    requires forall i :: 0 <= i < |markers| ==> markers[i] != []
    ensures |r| <= |text|
    decreases |markers|
  {
    if markers == [] then text else RemoveMarkers(PyStr.RemoveAll(text, markers[0]), markers[1..])
  }

  /** Removing markers changes a text exactly when one of them occurs in it, and then shortens it. */
  lemma {:induction false} RemoveMarkersSpec(text: string, markers: seq<string>)
    requires forall i :: 0 <= i < |markers| ==> markers[i] != []
    ensures RemoveMarkers(text, markers) == text <==> forall i :: 0 <= i < |markers| ==> !PyStr.Contains(text, markers[i])
    ensures (exists i :: 0 <= i < |markers| && PyStr.Contains(text, markers[i])) ==> |RemoveMarkers(text, markers)| < |text|
    decreases |markers|
  {
    if markers != [] {
      var t1 := PyStr.RemoveAll(text, markers[0]);
      PyStr.RemoveAllSpec(text, markers[0]);
      RemoveMarkersSpec(t1, markers[1..]);
      if t1 == text {
        forall i | 1 <= i < |markers| ensures markers[1..][i - 1] == markers[i] { }
      }
    }
  }

  /** What `_clean_text` computes. */
  function Clean(text: string): (r: string)
  {
    RemoveMarkers(text, Markers)
  }

  /**
   * `_clean_text`: the markers are removed one after the other; the final
   * `encode('utf-8', 'ignore').decode('utf-8')` gives back the same text, as a string of
   * scalar values always encodes.
   */
  method CleanText(text: string) returns (r: string)
    ensures r == Clean(text)
  {
    r := text;
    for i := 0 to |Markers|
      invariant RemoveMarkers(r, Markers[i..]) == Clean(text)
    {
      assert Markers[i..][1..] == Markers[i + 1..];
      r := PyStr.RemoveAll(r, Markers[i]);
    }
    assert Markers[|Markers|..] == [];
    var bytes := Utf8.Encode(r);
    Utf8.EncodeDecode(r);
    r := Utf8.Decode(bytes);
  }

  /** Cleaning leaves a text unchanged exactly when it holds none of the three markers, and otherwise shortens it. */
  lemma CleanSpec(text: string)
    ensures Clean(text) == text <==>
      !PyStr.Contains(text, "<|im_end|>") && !PyStr.Contains(text, "<|im_start|>") && !PyStr.Contains(text, "<|endoftext|>")
    ensures Clean(text) != text ==> |Clean(text)| < |text|
  {
    RemoveMarkersSpec(text, Markers);
    assert Markers[0] == "<|im_end|>" && Markers[1] == "<|im_start|>" && Markers[2] == "<|endoftext|>";
  }

  /** The characters after which a non-final send may cut the text it keeps. */
  predicate IsSentenceEnd(c: char)
  {
    c == '。' || c == '！' || c == '？' || c == '\n'
  }

  function Max(a: int, b: int): int { if a < b then b else a }

  /** `max(full.rfind('。', -100), full.rfind('！', -100), full.rfind('？', -100), full.rfind('\n', -100), -100)`. */
  function LastSentenceEnd(full: string): int
    requires |full| > 100
  {
    var start := |full| - 100;
    Max(Max(Max(Max(PyStr.RFindFrom(full, '。', start), PyStr.RFindFrom(full, '！', start)),
                PyStr.RFindFrom(full, '？', start)), PyStr.RFindFrom(full, '\n', start)), -100)
  }

  /** The text a non-final send keeps of a cleaned text longer than 100 characters. */
  function Retained(full: string): string
    requires |full| > 100
  {
    var lastSep := LastSentenceEnd(full);
    if lastSep != -1 then full[lastSep + 1..] else full[|full| - 100..]
  }

  /**
   * What is kept is a suffix of at most 100 characters without a sentence end in it; it
   * is cut right after the last sentence end among the last 100 characters, or is all
   * of those 100 characters when there is none.
   */
  lemma RetainedSpec(full: string)
    requires |full| > 100
    ensures var r := Retained(full);
      && |r| <= 100
      && r == full[|full| - |r|..]
      && (forall j :: |full| - |r| <= j < |full| ==> !IsSentenceEnd(full[j]))
      && (|r| == 100 || IsSentenceEnd(full[|full| - |r| - 1]))
  {
    var start := |full| - 100;
    var lastSep := LastSentenceEnd(full);
    assert lastSep == -1 || (start <= lastSep < |full| && IsSentenceEnd(full[lastSep]));
    forall j | start <= j < |full| && IsSentenceEnd(full[j]) ensures j <= lastSep {
    }
  }

  /** Outcome of `_send_update`: what is put on the queue, if anything, and the new text buffer. */
  datatype Flushed = Flushed(emitted: Option<Update>, buffer: seq<string>)
  {
    function Emitted(): seq<Update>
    {
      if emitted.Some? then [emitted.value] else []
    }
  }

  /** The effect of `_send_update(final)` on a text buffer. */
  function Flush(buffer: seq<string>, final: bool): Flushed
  {
    if buffer == [] then Flushed(None, buffer)
    else
      var full := Clean(PyStr.Concat(buffer));
      if final then Flushed(Some(Update(full, true)), [])
      else if |full| > 100 then Flushed(Some(Update(full, false)), [Retained(full)])
      else Flushed(Some(Update(full, false)), buffer)
  }

  /**
   * A non-final `_send_update` sends the cleaned text of the whole buffer; the buffer
   * stays as it was when that text has at most 100 characters, and otherwise becomes
   * one piece of at most 100 characters that ends the text just sent.
   */
  lemma NonFinalFlushKeepsTail(buffer: seq<string>)
    requires buffer != []
    ensures var full := Clean(PyStr.Concat(buffer));
            var f := Flush(buffer, false);
            && f.emitted == Some(Update(full, false))
            && (|full| <= 100 ==> f.buffer == buffer)
            && (|full| > 100 ==> |f.buffer| == 1 && |f.buffer[0]| <= 100 && f.buffer[0] == full[|full| - |f.buffer[0]|..])
  {
    var full := Clean(PyStr.Concat(buffer));
    if |full| > 100 {
      RetainedSpec(full);
      assert Flush(buffer, false) == Flushed(Some(Update(full, false)), [Retained(full)]);
    } else {
      assert Flush(buffer, false) == Flushed(Some(Update(full, false)), buffer);
    }
  }

  class SafeStreamer {
    var byteBuffer: seq<byte>
    var textBuffer: seq<string>
    var lastUpdate: real
    /** Everything put on the output queue so far, oldest first. */
    var sent: seq<Update>

    /** The byte buffer never holds more than three bytes. */
    predicate Valid()
      reads this
    {
      |byteBuffer| <= 3
    }

    /** `__init__`, with `now` the clock reading. */
    constructor (now: real)
      ensures Valid()
      ensures byteBuffer == [] && textBuffer == [] && lastUpdate == now && sent == []
    {
      byteBuffer := [];
      textBuffer := [];
      lastUpdate := now;
      sent := [];
    }

    /**
     * `put(token_ids)`, with `stopSet` the state of the stop event and `now`, `later`
     * the two clock readings. With the stop event set it raises StopIteration
     * (`cancelled`) before touching anything. Otherwise the bytes of the decoded row go
     * through `Feed`, and when more than 0.1 s has passed since the last update the text
     * buffer is flushed and the update time becomes `later`.
     */
    method Put(ids: TokenIds, decode: seq<int> -> string, stopSet: bool, now: real, later: real)
      returns (cancelled: bool)
      requires Valid()
      modifies this
      ensures Valid()
      ensures cancelled == stopSet
      ensures stopSet ==>
        byteBuffer == old(byteBuffer) && textBuffer == old(textBuffer)
        && lastUpdate == old(lastUpdate) && sent == old(sent)
      ensures !stopSet ==>
        var fed := Feed(old(byteBuffer), Utf8.Encode(decode(ids.Row())));
        var texts := old(textBuffer) + fed.Texts();
        && byteBuffer == fed.rest
        && if now - old(lastUpdate) > 0.1 then
             textBuffer == Flush(texts, false).buffer && sent == old(sent) + Flush(texts, false).Emitted()
             && lastUpdate == later
           else
             textBuffer == texts && sent == old(sent) && lastUpdate == old(lastUpdate)
    {
      if stopSet {
        cancelled := true;
        return;
      }
      cancelled := false;
      var bytes := Utf8.Encode(decode(ids.Row()));
      ghost var fed := Feed(byteBuffer, bytes);
      byteBuffer := byteBuffer + bytes;
      if Utf8.Valid(byteBuffer) {
        textBuffer := textBuffer + [Utf8.Decode(byteBuffer)];
        byteBuffer := [];
      } else {
        var keep := Min(3, |byteBuffer|);
        byteBuffer := PyStr.TailSlice(byteBuffer, keep);
      }
      assert byteBuffer == fed.rest && textBuffer == old(textBuffer) + fed.Texts();
      if now - lastUpdate > 0.1 {
        SendUpdate(false);
        lastUpdate := later;
      }
    }

    /** `end()`: the final send. */
    method End()
      modifies this
      ensures textBuffer == Flush(old(textBuffer), true).buffer == []
      ensures sent == old(sent) + Flush(old(textBuffer), true).Emitted()
      ensures byteBuffer == old(byteBuffer) && lastUpdate == old(lastUpdate)
    {
      SendUpdate(true);
    }

    /** `_send_update(final)`. */
    method SendUpdate(final: bool)
      modifies this
      ensures textBuffer == Flush(old(textBuffer), final).buffer
      ensures sent == old(sent) + Flush(old(textBuffer), final).Emitted()
      ensures byteBuffer == old(byteBuffer) && lastUpdate == old(lastUpdate)
    {
      if textBuffer == [] {
        return;
      }
      var full := CleanText(PyStr.Concat(textBuffer));
      if final {
        sent := sent + [Update(full, true)];
        textBuffer := [];
      } else {
        sent := sent + [Update(full, false)];
        if |full| > 100 {
          textBuffer := [Retained(full)];
        }
      }
    }
  }

  /** After a `put` from an empty byte buffer the buffer is empty again and the decoded text joined the text buffer. */
  lemma PutFromEmpty(t: string, textBuffer: seq<string>)
    ensures Feed([], Utf8.Encode(t)).rest == []
    ensures textBuffer + Feed([], Utf8.Encode(t)).Texts() == textBuffer + [t]
  {
    FeedFromEmpty(t);
  }

  /** `_wrap_text` may end a line with `c` once the line is long enough and `c` is a break character. */
  predicate BreakAllowed(line: string, c: char, maxLength: int, prefixLen: int)
  {
    |line| - prefixLen >= maxLength && (c == '，' || c == '。' || c == '！' || c == '？' || c == ' ')
  }

  /** No character of `l` could have ended the line at the point it was added. */
  predicate NoBreakIn(l: string, maxLength: int, prefixLen: int)
  {
    forall j :: 0 <= j < |l| ==> !BreakAllowed(l[..j], l[j], maxLength, prefixLen)
  }

  /** A line ended by the first character at which a break was allowed. */
  predicate ClosedLine(l: string, maxLength: int, prefixLen: int)
  {
    l != [] && NoBreakIn(l[..|l| - 1], maxLength, prefixLen)
    && BreakAllowed(l[..|l| - 1], l[|l| - 1], maxLength, prefixLen)
  }

  /**
   * The lines `_wrap_text` produces: each but the last ends with the first character at
   * which a break was allowed; the last one is either such a line or a non-empty rest
   * in which no break was allowed.
   */
  predicate GreedyLines(lines: seq<string>, maxLength: int, prefixLen: int)
  {
    && (forall k :: 0 <= k < |lines| - 1 ==> ClosedLine(lines[k], maxLength, prefixLen))
    && (lines != [] ==>
          var l := lines[|lines| - 1];
          ClosedLine(l, maxLength, prefixLen) || (l != [] && NoBreakIn(l, maxLength, prefixLen)))
  }

  lemma ExtendOpenLine(current: string, c: char, maxLength: int, prefixLen: int)
    requires NoBreakIn(current, maxLength, prefixLen)
    requires !BreakAllowed(current, c, maxLength, prefixLen)
    ensures NoBreakIn(current + [c], maxLength, prefixLen)
  {
    var line := current + [c];
    assert line[..|current|] == current;
    forall j | 0 <= j < |current| ensures line[..j] == current[..j] && line[j] == current[j] { }
  }

  lemma CloseOpenLine(current: string, c: char, maxLength: int, prefixLen: int)
    requires NoBreakIn(current, maxLength, prefixLen)
    requires BreakAllowed(current, c, maxLength, prefixLen)
    ensures ClosedLine(current + [c], maxLength, prefixLen)
  {
    var line := current + [c];
    assert line[..|line| - 1] == current;
  }

  /**
   * `_wrap_text(text, max_length, prefix_len)`: the returned text is the greedy lines,
   * joined with "\n"; the lines put together are exactly the input.
   */
  method WrapText(text: string, maxLength: int, prefixLen: int) returns (r: string, ghost lines: seq<string>)
    ensures PyStr.Concat(lines) == text
    ensures GreedyLines(lines, maxLength, prefixLen)
    ensures r == PyStr.Join(lines, "\n")
  {
    var wrapped: seq<string> := [];
    var current := "";
    for i := 0 to |text|
      invariant PyStr.Concat(wrapped) + current == text[..i]
      invariant forall k :: 0 <= k < |wrapped| ==> ClosedLine(wrapped[k], maxLength, prefixLen)
      invariant NoBreakIn(current, maxLength, prefixLen)
    {
      var c := text[i];
      assert text[..i + 1] == text[..i] + [c];
      if BreakAllowed(current, c, maxLength, prefixLen) {
        CloseOpenLine(current, c, maxLength, prefixLen);
        PyStr.ConcatSnoc(wrapped, current + [c]);
        wrapped := wrapped + [current + [c]];
        current := "";
      } else {
        ExtendOpenLine(current, c, maxLength, prefixLen);
        current := current + [c];
      }
    }
    assert text[..|text|] == text;
    if current != "" {
      PyStr.ConcatSnoc(wrapped, current);
      wrapped := wrapped + [current];
    } else {
      assert PyStr.Concat(wrapped) == text;
    }
    lines := wrapped;
    r := PyStr.Join(wrapped, "\n");
  }
}
