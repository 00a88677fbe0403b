/**
 * The conversation state of the chat window (LLM_conversation_GUI.py): the history
 * of prefixed turns, trimmed two entries at a time to about 2000 characters and
 * rendered as a ChatML prompt, and the streamer that collects the model's reply.
 */
module ChatGui {
  import PyStr

  const UserPrefix: string := "用户: "
  const AssistantPrefix: string := "助手: "

  /** A history entry: a turn with its speaker's prefix. */
  predicate IsEntry(m: string)
  {
    PyStr.StartsWith(m, UserPrefix) || PyStr.StartsWith(m, AssistantPrefix)
  }

  /** `"\n".join(history)` is longer than 2000 characters and more than two entries remain. */
  predicate MustTrim(h: seq<string>)
  {
    |PyStr.Join(h, "\n")| > 2000 && |h| > 2
  }

  /** What `_trim_history` leaves of a history. */
  function Trimmed(h: seq<string>): seq<string>
    decreases |h|
  {
    if MustTrim(h) then Trimmed(h[2..]) else h
  }

  /**
   * `_trim_history` drops entries two at a time from the front, for as long as the joined
   * history is over 2000 characters and more than two entries remain, and no longer.
   */
  lemma {:induction false} TrimmedSpec(h: seq<string>)
    ensures exists k :: 0 <= 2 * k <= |h| && Trimmed(h) == h[2 * k..]
                        && forall j :: 0 <= j < k ==> MustTrim(h[2 * j..])
    ensures !MustTrim(Trimmed(h))
    ensures !MustTrim(h) ==> Trimmed(h) == h
    decreases |h|
  {
    if MustTrim(h) {
      TrimmedSpec(h[2..]);
      var k :| 0 <= 2 * k <= |h[2..]| && Trimmed(h[2..]) == h[2..][2 * k..]
               && forall j :: 0 <= j < k ==> MustTrim(h[2..][2 * j..]);
      assert h[2..][2 * k..] == h[2 * (k + 1)..];
      forall j | 0 <= j < k + 1 ensures MustTrim(h[2 * j..]) {
        if j > 0 {
          assert h[2..][2 * (j - 1)..] == h[2 * j..];
        } else {
          assert h[0..] == h;
        }
      }
    } else {
      assert h[2 * 0..] == h;
    }
  }

  /** Trimming keeps entries that are all prefixed turns. */
  lemma {:induction false} TrimmedKeepsEntries(h: seq<string>)
    requires forall i :: 0 <= i < |h| ==> IsEntry(h[i])
    ensures forall i :: 0 <= i < |Trimmed(h)| ==> IsEntry(Trimmed(h)[i])
    decreases |h|
  {
    if MustTrim(h) {
      assert forall i :: 0 <= i < |h[2..]| ==> h[2..][i] == h[i + 2];
      TrimmedKeepsEntries(h[2..]);
    }
  }

  /** `role` of `generate_prompt`. */
  function Role(m: string): string
  {
    if PyStr.StartsWith(m, "用户:") then "user" else "assistant"
  }

  /** The ChatML block `generate_prompt` emits for one entry; `split(": ", 1)[1]` needs a ": " in it. */
  function Block(m: string): string
    requires PyStr.Contains(m, ": ")
  {
    "<|im_start|>" + Role(m) + "\n" + PyStr.AfterFirst(m, ": ") + "<|im_end|>\n"
  }

  /** The blocks of a list of entries, in order. */
  function Blocks(ms: seq<string>): string
    requires forall i :: 0 <= i < |ms| ==> PyStr.Contains(ms[i], ": ")
  {
    if ms == [] then "" else Blocks(ms[..|ms| - 1]) + Block(ms[|ms| - 1])
  }

  /** What `generate_prompt` returns. */
  function Prompt(history: seq<string>): string
    requires forall i :: 0 <= i < |history| ==> PyStr.Contains(history[i], ": ")
  {
    Blocks(history) + "<|im_start|>assistant\n"
  }

  /** The content `split(": ", 1)[1]` of a prefixed turn is the text after the prefix. */
  lemma PrefixedContent(p: string, text: string)
    requires p == UserPrefix || p == AssistantPrefix
    ensures PyStr.Contains(p + text, ": ")
    ensures PyStr.AfterFirst(p + text, ": ") == text
  {
    var m := p + text;
    assert m[0] == p[0] && m[1] == p[1];
    assert !PyStr.OccursAt(m, ": ", 0) && !PyStr.OccursAt(m, ": ", 1);
    PyStr.AfterFirstOfPrefix(p, ": ", text);
  }

  /** An entry made by `add_query(q)` becomes a "user" block whose content is `q`. */
  lemma UserBlock(text: string)
    ensures PyStr.Contains(UserPrefix + text, ": ")
    ensures Block(UserPrefix + text) == "<|im_start|>user\n" + text + "<|im_end|>\n"
  {
    PrefixedContent(UserPrefix, text);
    assert (UserPrefix + text)[..3] == "用户:";
  }

  /** An entry made by `add_response(r)` becomes an "assistant" block whose content is `r`. */
  lemma AssistantBlock(text: string)
    ensures PyStr.Contains(AssistantPrefix + text, ": ")
    ensures Block(AssistantPrefix + text) == "<|im_start|>assistant\n" + text + "<|im_end|>\n"
  {
    PrefixedContent(AssistantPrefix, text);
    assert (AssistantPrefix + text)[0] != '用';
    assert Role(AssistantPrefix + text) == "assistant";
  }

  /** The blocks of the first `i + 1` entries are those of the first `i` and one more. */
  lemma BlocksPrefix(ms: seq<string>, i: nat)
    requires forall j :: 0 <= j < |ms| ==> PyStr.Contains(ms[j], ": ")
    requires i < |ms|
    ensures Blocks(ms[..i + 1]) == Blocks(ms[..i]) + Block(ms[i])
  {
    assert ms[..i + 1][..i] == ms[..i] && ms[..i + 1][i] == ms[i];
  }

  /** Every prefixed turn holds a ": ", so `generate_prompt` never fails on a history of entries. */
  lemma EntryHasSeparator(m: string)
    requires IsEntry(m)
    ensures PyStr.Contains(m, ": ")
  {
    assert PyStr.OccursAt(m, ": ", 2);
  }

  class ChatHistory {
    var history: seq<string>

    /** Every entry is a prefixed turn. */
    predicate Valid()
      reads this
    {
      forall i :: 0 <= i < |history| ==> IsEntry(history[i])
    }

    constructor ()
      ensures Valid() && history == []
    {
      history := [];
    }

    /** `add_query(query)`: one "用户: " entry is appended, then the history is trimmed. */
    method AddQuery(query: string)
      requires Valid()
      modifies this
      ensures Valid()
      ensures history == Trimmed(old(history) + [UserPrefix + query])
    {
      history := history + [UserPrefix + query];
      TrimHistory();
    }

    /** `add_response(response)`: one "助手: " entry is appended, then the history is trimmed. */
    method AddResponse(response: string)
      requires Valid()
      modifies this
      ensures Valid()
      ensures history == Trimmed(old(history) + [AssistantPrefix + response])
    {
      history := history + [AssistantPrefix + response];
      TrimHistory();
    }

    /** `_trim_history`. */
    method TrimHistory()
      requires forall i :: 0 <= i < |history| ==> IsEntry(history[i])
      modifies this
      ensures Valid()
      ensures history == Trimmed(old(history))
    {
      TrimmedKeepsEntries(history);
      var fullText := PyStr.Join(history, "\n");
      while |fullText| > 2000 && |history| > 2
        invariant fullText == PyStr.Join(history, "\n")
        invariant Trimmed(history) == Trimmed(old(history))
        decreases |history|
      {
        history := history[2..];
        fullText := PyStr.Join(history, "\n");
      }
    }

    /** `generate_prompt()`: one block per entry, in order, then the open assistant turn. */
    method GeneratePrompt() returns (prompt: string)
      requires Valid()
      ensures forall i :: 0 <= i < |history| ==> PyStr.Contains(history[i], ": ")
      ensures prompt == Prompt(history)
    {
      forall i | 0 <= i < |history| ensures PyStr.Contains(history[i], ": ") {
        EntryHasSeparator(history[i]);
      }
      prompt := "";
      for i := 0 to |history|
        invariant prompt == Blocks(history[..i])
      {
        var msg := history[i];
        var role := if PyStr.StartsWith(msg, "用户:") then "user" else "assistant";
        var content := PyStr.AfterFirst(msg, ": ");
        BlocksPrefix(history, i);
        var block := "<|im_start|>" + role + "\n" + content + "<|im_end|>\n";
        prompt := prompt + block;
      }
      assert history[..|history|] == history;
      prompt := prompt + "<|im_start|>assistant\n";
    }
  }

  /** The text `on_finalized_text` looks at: "<|im_end|>" removed, stripped, cut before the first "<|im_start|>". */
  function Considered(text: string): string
  {
    PyStr.SplitHead(PyStr.Strip(PyStr.RemoveAll(text, "<|im_end|>")), "<|im_start|>")
  }

  /** The considered text never holds "<|im_start|>", and is the stripped text itself when that holds none. */
  lemma ConsideredSpec(text: string)
    ensures !PyStr.Contains(Considered(text), "<|im_start|>")
    ensures var s := PyStr.Strip(PyStr.RemoveAll(text, "<|im_end|>"));
            !PyStr.Contains(s, "<|im_start|>") ==> Considered(text) == s
  {
    PyStr.SplitHeadSpec(PyStr.Strip(PyStr.RemoveAll(text, "<|im_end|>")), "<|im_start|>");
  }

  /** The response `stream_end` records: the joined buffer without "<|endoftext|>", stripped. */
  function FinalResponse(buffer: seq<string>): string
  {
    PyStr.Strip(PyStr.RemoveAll(PyStr.Concat(buffer), "<|endoftext|>"))
  }

  class GUIStreamer {
    var buffer: seq<string>
    const chatHistory: ChatHistory
    /** The texts passed to `update_callback` so far, oldest first. */
    var shown: seq<string>

    constructor (chatHistory: ChatHistory)
      ensures buffer == [] && shown == [] && this.chatHistory == chatHistory
    {
      buffer := [];
      this.chatHistory := chatHistory;
      shown := [];
    }

    /**
     * `on_finalized_text(text, stream_end)`: the considered chunk is accepted only when it
     * is longer than the joined buffer (so non-empty), and then the WHOLE chunk is appended
     * as one element and the new join is shown. At the end of the stream exactly one
     * response is added to the history and the buffer is emptied.
     */
    method OnFinalizedText(text: string, streamEnd: bool)
      requires chatHistory.Valid()
      modifies this, chatHistory
      ensures chatHistory.Valid()
      ensures var t := Considered(text);
              var accepted := |t| > |PyStr.Concat(old(buffer))|;
              var grown := if accepted then old(buffer) + [t] else old(buffer);
              && shown == old(shown) + (if accepted then [PyStr.Concat(grown)] else [])
              && buffer == (if streamEnd then [] else grown)
              && chatHistory.history ==
                   if streamEnd then Trimmed(old(chatHistory.history) + [AssistantPrefix + FinalResponse(grown)])
                   else old(chatHistory.history)
    {
      var t := PyStr.RemoveAll(text, "<|im_end|>");
      t := PyStr.Strip(t);
      if PyStr.Find(t, "<|im_start|>") != -1 {
        t := PyStr.SplitHead(t, "<|im_start|>");
      } else {
        PyStr.SplitHeadSpec(t, "<|im_start|>");
      }
      if t != "" {
        var joined := PyStr.Concat(buffer);
        var newText := if |joined| < |t| then t[|joined|..] else "";
        if newText != "" {
          buffer := buffer + [t];
          shown := shown + [PyStr.Concat(buffer)];
        }
      }
      if streamEnd {
        var fullResponse := PyStr.RemoveAll(PyStr.Concat(buffer), "<|endoftext|>");
        fullResponse := PyStr.Strip(fullResponse);
        chatHistory.AddResponse(fullResponse);
        buffer := [];
      }
    }
  }

  /**
   * The chunk is appended whole, not just its new suffix: with "ab" buffered, the chunk
   * "abc" is accepted and the callback is shown "ababc".
   */
  lemma WholeChunkAppended()
    ensures |Considered("abc")| > |PyStr.Concat(["ab"])|
    ensures PyStr.Concat(["ab", "abc"]) == "ababc"
  {
    assert PyStr.RemoveAll("abc", "<|im_end|>") == "abc";
    assert PyStr.LeadingSpace("abc") == 0 && PyStr.TrailingSpace("abc") == 0;
    assert PyStr.Strip("abc") == "abc";
    PyStr.SplitHeadSpec("abc", "<|im_start|>");
    assert PyStr.Concat(["ab"]) == "ab" + PyStr.Concat([]);
    assert PyStr.Concat(["ab", "abc"]) == "ab" + PyStr.Concat(["abc"]);
    assert PyStr.Concat(["abc"]) == "abc" + PyStr.Concat([]);
  }
}
