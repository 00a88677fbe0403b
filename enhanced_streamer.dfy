/**
 * The simpler token streamer of the chat application (LLMs/LLM.py:252-303): the
 * decoded text of every `put` joins a text buffer, which is sent at most every 0.5 s
 * and once at the end; a non-final send keeps only the last 50 characters.
 */
module EnhancedStream {
  import opened Wrappers
  import PyStr
  import SafeStream

  type TokenIds = SafeStream.TokenIds
  type Update = SafeStream.Update

  /** Outcome of `_send_update`: what is put on the queue, if anything, and the new buffer. */
  datatype Flushed = Flushed(emitted: Option<Update>, buffer: seq<string>)
  {
    function Emitted(): seq<Update>
    {
      if emitted.Some? then [emitted.value] else []
    }
  }

  /** The effect of `_send_update(final)` on the buffer. */
  function Flush(buffer: seq<string>, final: bool): Flushed
  {
    if buffer == [] then Flushed(None, buffer)
    else
      var full := PyStr.Concat(buffer);
      if final then Flushed(Some(SafeStream.Update(full, true)), [])
      else if |full| > 50 then Flushed(Some(SafeStream.Update(full, false)), [full[|full| - 50..]])
      else Flushed(Some(SafeStream.Update(full, false)), buffer)
  }

  /**
   * A send puts exactly the concatenation of the buffer on the queue, or nothing when
   * the buffer is empty. A final send empties the buffer; after a non-final one the
   * buffer holds exactly the last min(50, n) characters of the n characters just sent.
   */
  lemma FlushSpec(buffer: seq<string>, final: bool)
    ensures Flush(buffer, final).emitted ==
      if buffer == [] then None else Some(SafeStream.Update(PyStr.Concat(buffer), final))
    ensures final ==> Flush(buffer, final).buffer == []
    ensures !final ==>
      var full := PyStr.Concat(buffer);
      var kept := PyStr.Concat(Flush(buffer, final).buffer);
      kept == full[|full| - SafeStream.Min(50, |full|)..]
  {
    var full := PyStr.Concat(buffer);
    if !final {
      if |full| > 50 {
        var r := full[|full| - 50..];
        assert PyStr.Concat([r]) == r + PyStr.Concat([]);
      } else {
        assert full[0..] == full;
      }
    }
  }

  class EnhancedStreamer {
    var buffer: seq<string>
    var lastUpdate: real
    /** Everything put on the output queue so far, oldest first. */
    var sent: seq<Update>

    /** `__init__`, with `now` the clock reading. */
    constructor (now: real)
      ensures buffer == [] && lastUpdate == now && sent == []
    {
      buffer := [];
      lastUpdate := now;
      sent := [];
    }

    /**
     * `put(token_ids)`, with `stopSet` the state of the stop event, `decode` the
     * tokenizer's `decode(..., skip_special_tokens=True)` and `now`, `later` the two clock
     * readings. With the stop event set it raises StopIteration (`cancelled`) and appends
     * nothing; otherwise the decoded first row becomes exactly one new buffer element, and
     * when more than 0.5 s has passed since the last update the buffer is sent and the
     * update time becomes `later`.
     */
    method Put(ids: TokenIds, decode: seq<int> -> string, stopSet: bool, now: real, later: real)
      returns (cancelled: bool)
      modifies this
      ensures cancelled == stopSet
      ensures stopSet ==> buffer == old(buffer) && lastUpdate == old(lastUpdate) && sent == old(sent)
      ensures !stopSet ==>
        var texts := old(buffer) + [decode(ids.Row())];
        if now - old(lastUpdate) > 0.5 then
          buffer == Flush(texts, false).buffer && sent == old(sent) + Flush(texts, false).Emitted()
          && lastUpdate == later
        else
          buffer == texts && sent == old(sent) && lastUpdate == old(lastUpdate)
    {
      if stopSet {
        return true;
      }
      var text := decode(ids.Row());
      buffer := buffer + [text];
      if now - lastUpdate > 0.5 {
        SendUpdate(false);
        lastUpdate := later;
      }
      cancelled := false;
    }

    /** `end()`: the final send, after which the buffer is empty. */
    method End()
      modifies this
      ensures buffer == Flush(old(buffer), true).buffer == []
      ensures sent == old(sent) + Flush(old(buffer), true).Emitted()
      ensures lastUpdate == old(lastUpdate)
    {
      SendUpdate(true);
    }

    /** `_send_update(final)`. */
    method SendUpdate(final: bool)
      modifies this
      ensures buffer == Flush(old(buffer), final).buffer
      ensures sent == old(sent) + Flush(old(buffer), final).Emitted()
      ensures lastUpdate == old(lastUpdate)
    {
      if buffer == [] {
        return;
      }
      var full := PyStr.Concat(buffer);
      if final {
        sent := sent + [SafeStream.Update(full, true)];
        buffer := [];
      } else {
        sent := sent + [SafeStream.Update(full, false)];
        if |full| > 50 {
          buffer := [full[|full| - 50..]];
        }
      }
    }
  }
}
