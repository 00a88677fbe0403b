/**
 * The console chat (LLM_conversation.py): an unbounded list of prefixed turns, a
 * prompt made of the last `max_length` of them, the reply picked out of the decoded
 * model output, and the loop that ends on an exit word.
 */
module Conversation {
  import PyStr

  const UserPrefix: string := "用户: "
  const AssistantPrefix: string := "助手: "

  class ChatHistory {
    var history: seq<string>
    const maxLength: int

    /** `ChatHistory(tokenizer, max_length)`; the source's default length is 1000. */
    constructor (maxLength: int)
      ensures history == [] && this.maxLength == maxLength
    {
      history := [];
      this.maxLength := maxLength;
    }

    /** `add_user_input(text)`: exactly one "用户: " entry is appended; nothing is ever trimmed. */
    method AddUserInput(text: string)
      modifies this
      ensures history == old(history) + [UserPrefix + text]
    {
      history := history + [UserPrefix + text];
    }

    /** `add_bot_response(text)`: exactly one "助手: " entry is appended. */
    method AddBotResponse(text: string)
      modifies this
      ensures history == old(history) + [AssistantPrefix + text]
    {
      history := history + [AssistantPrefix + text];
    }

    /** `get_full_history()`: `"\n".join(history[-max_length:])`. */
    function GetFullHistory(): string
      reads this
    {
      PyStr.Join(PyStr.TailSlice(history, maxLength), "\n")
    }

    /** `generate_prompt()`. */
    function GeneratePrompt(): string
      reads this
    {
      PromptFor(history, maxLength)
    }

    /**
     * The prompt joins the last `max_length` entries (all of them when there are fewer)
     * and opens an assistant turn; `history[-0:]` makes a length of 0 keep every entry.
     */
    lemma PromptSpec()
      ensures maxLength > 0 ==>
        var n := if maxLength < |history| then maxLength else |history|;
        GetFullHistory() == PyStr.Join(history[|history| - n..], "\n")
      ensures maxLength == 0 ==> GetFullHistory() == PyStr.Join(history, "\n")
      ensures GeneratePrompt()[|GeneratePrompt()| - |"\n助手: "|..] == "\n助手: "
    {
      assert history[0..] == history;
    }
  }

  /** The prompt `generate_prompt` builds from the entries `entries`: the last `maxLength` of them joined by newlines, then an open assistant turn. */
  function PromptFor(entries: seq<string>, maxLength: int): string
  {
    PyStr.Join(PyStr.TailSlice(entries, maxLength), "\n") + "\n助手: "
  }

  /** The assistant entry recorded after the entries `entries`: the reply picked out of the model output for their prompt. */
  function ReplyEntry(entries: seq<string>, model: string -> string): string
  {
    var prompt := PromptFor(entries, 1000);
    AssistantPrefix + ExtractReply(model(prompt), |prompt|)
  }

  /**
   * The reply `generate_response` returns for the decoded output: the text after the
   * prompt's length, stripped, cut before the first "用户:" and then before the first
   * "助手:", and stripped again.
   */
  function ExtractReply(decoded: string, promptLength: nat): string
  {
    var rest := if promptLength <= |decoded| then decoded[promptLength..] else "";
    PyStr.Strip(PyStr.SplitHead(PyStr.SplitHead(PyStr.Strip(rest), "用户:"), "助手:"))
  }

  /** A piece of a string without `pat` has no `pat` either. */
  lemma PieceLacks(s: string, i: int, j: int, pat: string)
    requires 0 <= i <= j <= |s| && !PyStr.Contains(s, pat)
    ensures !PyStr.Contains(s[i..j], pat)
  {
    if PyStr.Contains(s[i..j], pat) {
      var k :| 0 <= k <= |s[i..j]| - |pat| && PyStr.OccursAt(s[i..j], pat, k);
      assert |s[i..j]| == j - i && i + k + |pat| <= j;
      var t := s[i..j];
      forall l | 0 <= l < |pat| ensures pat[l] == s[i + k + l] {
        assert pat[l] == t[k..k + |pat|][l] == t[k + l];
      }
      assert s[i + k..i + k + |pat|] == pat;
      assert PyStr.OccursAt(s, pat, i + k);
    }
  }

  /** A piece of a piece is a piece. */
  predicate IsPiece(t: string, s: string)
  {
    exists i, j :: 0 <= i <= j <= |s| && t == s[i..j]
  }

  lemma PieceOfPiece(u: string, t: string, s: string, a: int, b: int)
    requires IsPiece(t, s) && 0 <= a <= b <= |t| && u == t[a..b]
    ensures IsPiece(u, s)
  {
    var i, j :| 0 <= i <= j <= |s| && t == s[i..j];
    assert |t| == j - i && i + b <= j;
    assert forall l :: 0 <= l < b - a ==> u[l] == s[i + a..i + b][l];
    assert u == s[i + a..i + b];
  }

  /**
   * The reply holds neither "用户:" nor "助手:", and is a contiguous piece of the decoded
   * text after its first `promptLength` characters.
   */
  lemma ExtractReplySpec(decoded: string, promptLength: nat)
    ensures !PyStr.Contains(ExtractReply(decoded, promptLength), "用户:")
    ensures !PyStr.Contains(ExtractReply(decoded, promptLength), "助手:")
    ensures promptLength <= |decoded| ==> IsPiece(ExtractReply(decoded, promptLength), decoded[promptLength..])
    ensures promptLength > |decoded| ==> ExtractReply(decoded, promptLength) == ""
  {
    var rest := if promptLength <= |decoded| then decoded[promptLength..] else "";
    var s1 := PyStr.Strip(rest);
    var s2 := PyStr.SplitHead(s1, "用户:");
    var s3 := PyStr.SplitHead(s2, "助手:");
    var r := PyStr.Strip(s3);
    PyStr.StripSpec(rest);
    PyStr.SplitHeadSpec(s1, "用户:");
    PyStr.SplitHeadSpec(s2, "助手:");
    PyStr.StripSpec(s3);
    var i, j :| 0 <= i <= j <= |s3| && r == s3[i..j];
    PieceLacks(s2, 0, |s3|, "用户:");
    assert s3 == s2[..|s3|] == s2[0..|s3|];
    PieceLacks(s3, i, j, "用户:");
    PieceLacks(s3, i, j, "助手:");
    assert IsPiece(s1, rest);
    PieceOfPiece(s2, s1, rest, 0, |s2|);
    PieceOfPiece(s3, s2, rest, 0, |s3|);
    PieceOfPiece(r, s3, rest, i, j);
    if promptLength > |decoded| {
      assert PyStr.LeadingSpace(rest) == 0;
    }
  }

  /** The exit words: `user_input.lower() in ["退出", "exit", "quit"]`. */
  predicate IsExitWord(input: string)
  {
    PyStr.LowerAscii(input) in ["退出", "exit", "quit"]
  }

  /** `s` equals the lower-case ASCII word `w` up to the case of its letters. */
  predicate SameIgnoringCase(s: string, w: string)
  {
    |s| == |w| && forall i :: 0 <= i < |s| ==> s[i] == w[i] || s[i] as int == w[i] as int - 32
  }

  lemma LowerCharIs(c: char, l: char)
    requires 'a' <= l <= 'z'
    ensures PyStr.LowerChar(c) == l <==> c == l || c as int == l as int - 32
  {
  }

  lemma LowerAsciiIs(s: string, w: string)
    requires forall i :: 0 <= i < |w| ==> 'a' <= w[i] <= 'z'
    ensures PyStr.LowerAscii(s) == w <==> SameIgnoringCase(s, w)
  {
    if |s| == |w| {
      forall i | 0 <= i < |s| ensures PyStr.LowerAscii(s)[i] == w[i] <==> s[i] == w[i] || s[i] as int == w[i] as int - 32 {
        LowerCharIs(s[i], w[i]);
      }
    }
  }

  /** The loop ends on "退出" exactly, or on "exit" or "quit" in any mix of letter case. */
  lemma IsExitWordSpec(input: string)
    ensures IsExitWord(input) <==>
      input == "退出" || SameIgnoringCase(input, "exit") || SameIgnoringCase(input, "quit")
  {
    LowerAsciiIs(input, "exit");
    LowerAsciiIs(input, "quit");
    var l := PyStr.LowerAscii(input);
    if l == "退出" {
      assert input[0] == l[0] && input[1] == l[1];
      assert input == "退出";
    }
  }

  /**
   * `generate_response(history)`, with `model` the decoded output of `model.generate`
   * for a prompt: the reply picked out of the output for the history's prompt.
   */
  method GenerateResponse(h: ChatHistory, model: string -> string) returns (response: string)
    requires h.maxLength == 1000
    ensures AssistantPrefix + response == ReplyEntry(h.history, model)
  {
    var prompt := h.GeneratePrompt();
    response := ExtractReply(model(prompt), |prompt|);
  }

  /**
   * `hs` holds `turns` exchanges: none of the first `turns` lines is a `stop` word,
   * entry 2i is the i-th line as a user turn, and entry 2i + 1 the reply to the
   * entries before it.
   */
  predicate Recorded(hs: seq<string>, inputs: seq<string>, turns: nat, reply: seq<string> -> string, stop: string -> bool)
  {
    && turns <= |inputs|
    && |hs| == 2 * turns
    && (forall i :: 0 <= i < turns ==> !stop(inputs[i]))
    && (forall i :: 0 <= i < turns ==> hs[2 * i] == UserPrefix + inputs[i])
    && (forall i :: 0 <= i < turns ==> hs[2 * i + 1] == reply(hs[..2 * i + 1]))
  }

  /** One more exchange on a line that is not a stop word keeps the record. */
  lemma {:induction false} RecordedStep(hs: seq<string>, inputs: seq<string>, turns: nat, reply: seq<string> -> string, stop: string -> bool)
    requires Recorded(hs, inputs, turns, reply, stop) && turns < |inputs| && !stop(inputs[turns])
    ensures var u := hs + [UserPrefix + inputs[turns]];
      Recorded(u + [reply(u)], inputs, turns + 1, reply, stop)
  {
    var u := hs + [UserPrefix + inputs[turns]];
    var hs' := u + [reply(u)];
    assert hs'[..2 * turns + 1] == u;
    forall i | 0 <= i < turns ensures hs'[2 * i] == UserPrefix + inputs[i] {
      assert hs'[2 * i] == hs[2 * i];
    }
    forall i | 0 <= i < turns ensures hs'[2 * i + 1] == reply(hs'[..2 * i + 1]) {
      PrefixOfExtended(hs, hs', 2 * i + 1);
      assert hs'[2 * i + 1] == hs[2 * i + 1];
    }
  }

  lemma PrefixOfExtended(hs: seq<string>, longer: seq<string>, k: int)
    requires 0 <= k <= |hs| <= |longer| && longer[..|hs|] == hs
    ensures longer[..k] == hs[..k]
  {
    assert longer[..k] == longer[..|hs|][..k];
  }

  /** One pass of the `chat` loop past the exit test: record the line, then the reply to it. */
  method Exchange(h: ChatHistory, userInput: string, model: string -> string)
    requires h.maxLength == 1000
    modifies h
    ensures var u := old(h.history) + [UserPrefix + userInput];
      h.history == u + [ReplyEntry(u, model)]
  {
    h.AddUserInput(userInput);
    var response := GenerateResponse(h, model);
    h.AddBotResponse(response);
  }

  /** The record `chat` keeps: no line so far is an exit word, and each reply is the one picked out of `model`'s output for the entries before it. */
  predicate ChatRecorded(hs: seq<string>, inputs: seq<string>, turns: nat, model: string -> string)
  {
    Recorded(hs, inputs, turns, hs => ReplyEntry(hs, model), IsExitWord)
  }

  /** The record `chat` keeps, written out. */
  lemma ChatRecordedSpec(hs: seq<string>, inputs: seq<string>, turns: nat, model: string -> string)
    ensures ChatRecorded(hs, inputs, turns, model) <==>
      && turns <= |inputs|
      && |hs| == 2 * turns
      && (forall i :: 0 <= i < turns ==> !IsExitWord(inputs[i]))
      && (forall i :: 0 <= i < turns ==> hs[2 * i] == UserPrefix + inputs[i])
      && (forall i :: 0 <= i < turns ==> hs[2 * i + 1] == ReplyEntry(hs[..2 * i + 1], model))
  {
  }

  /** One exchange of `chat` on a line that is not an exit word keeps its record. */
  lemma ChatRecordedStep(hs: seq<string>, inputs: seq<string>, turns: nat, model: string -> string)
    requires ChatRecorded(hs, inputs, turns, model) && turns < |inputs| && !IsExitWord(inputs[turns])
    ensures var u := hs + [UserPrefix + inputs[turns]];
      ChatRecorded(u + [ReplyEntry(u, model)], inputs, turns + 1, model)
  {
    RecordedStep(hs, inputs, turns, hs => ReplyEntry(hs, model), IsExitWord);
  }

  /**
   * `chat()` on the lines `inputs` typed by the user, with `model` the decoded output of
   * `model.generate` for a prompt: each line that is not an exit word is recorded with
   * the reply picked out of the output for the prompt of the entries before it; the
   * loop stops at the first exit word.
   */
  method Chat(inputs: seq<string>, model: string -> string) returns (h: ChatHistory, turns: nat)
    ensures fresh(h) && h.maxLength == 1000
    ensures ChatRecorded(h.history, inputs, turns, model)
    ensures turns < |inputs| ==> IsExitWord(inputs[turns])
  {
    h := new ChatHistory(1000);
    turns := 0;
    while true
      invariant ChatRecorded(h.history, inputs, turns, model) && h.maxLength == 1000
      decreases |inputs| - turns
    {
      if turns == |inputs| {
        break;
      }
      var userInput := inputs[turns];
      if IsExitWord(userInput) {
        break;
      }
      ChatRecordedStep(h.history, inputs, turns, model);
      Exchange(h, userInput, model);
      turns := turns + 1;
    }
  }
}
