# Verified model of the LLM front-ends, the board games and the hypergeometric calculator

This project is written in Dafny. It models the parts of the repository that hold state and logic, leaving out the windowing, threading and model-loading code around them. Each part is proved against a specification.

**LLM front-ends**

- `Repetition`: the stopping criterion `RepetitionDetector` of the streaming chat window.
  - It extracts the n-grams of the token sequence.
  - It counts how many of the last five n-grams are already in a bounded history, over the number of all current n-grams.
  - It stops after `repeat_threshold` repetitive verdicts in a row.
- `Utf8` and `SafeStream`: the `SafeStreamer` of `LLM_2.py`.
  - A byte buffer reassembles UTF-8 (well-formedness as in section 4 of RFC 3629) and keeps at most three bytes after a failed decode.
  - A text buffer is flushed at most every 0.1 s. A flush removes the chat markers and keeps a bounded tail.
  - The module also holds the greedy line wrapper `_wrap_text`.
- `EnhancedStream`: the simpler `EnhancedStreamer` of `LLMs/LLM.py`, which keeps the last 50 characters.
- `ChatGui`: the `ChatHistory` and `GUIStreamer` of the windowed chat.
  - Prefixed turns are trimmed two at a time while the history is over 2000 characters.
  - The prompt is ChatML.
  - A chunk is accepted only when it is longer than the buffer.
- `Conversation`: the console chat.
  - The history is unbounded.
  - The prompt is made of the last `max_length` turns.
  - The module covers reply extraction and the exit words.
- `PyStr`: the Python string and list operations these use (`join`, `xs[-k:]`, `strip`, `split`, `replace`, `find`, `lower`).

**Games.** Each game is a class whose methods update its fields as the source's methods do. Random choices (spawn cell, tile value, piece, food cell, bag order) are method parameters constrained by preconditions.

- `Game2048`:
  - row `merge`, with its pass loop;
  - the four-direction `move`, with its row and column loops;
  - `check_game_over`, `add_new_tile` and `start_game`.
- `TetrisBoard`, shared by `Tetris` and `TetrisPro`:
  - the seven shapes and the rotation;
  - `check_collision`;
  - `merge_piece`;
  - `clear_lines`, with both of its loops.
- `Tetris` and `TetrisPro`: the games built on `TetrisBoard`.
  - Both have the guarded move, drop and rotate, `new_piece`, `game_over` and one run of `game_loop`.
  - The "pro" game adds `hard_drop`, level, speed and scoring, and the 7-bag.
- `GobangRules`: the five-in-a-row test shared by both Gobang games.
- `Gobang` and `GobangPro`: the two Gobang games.
  - Both have click handling, placement and turn order.
  - The "pro" game adds the undo history and the per-player clocks.
- `Snake`: direction change, the step with collision and growth, the speed schedule and restart.

**Hypergeometric calculator** (`math_solver/hypgeom_dist.py`):

- `Binomial`: binomial coefficients by Pascal's rule, with sums over ranges and Vandermonde's identity.
- `Hypgeom`:
  - the `comb` loop;
  - parameter validation and the support bounds;
  - the exact distribution, expectation and variance.
  - It proves that the probabilities sum to 1, that the printed expectation is the mean, and that the printed variance is the variance of the distribution.
- `FractionText`: `format_fraction` and a reader for its output.

In `SafeStreamer.put` the bytes come from encoding a decoded string. So a `put` that starts from an empty byte buffer always decodes in full (`PutFromEmpty`), and the byte buffer stays empty. `SafeStream.FeedBytes` models the byte-by-byte delivery that the reassembly is written for.

Fractions are modelled as Dafny `real` (exact rationals) and integers as unbounded `int`.

The clock, the stop event and the tokenizer's `decode` are parameters. The console `input()` and `exit()` are modelled by `Hypgeom.Solve`'s parameters and its `RangeError` result, and by the list of lines `Conversation.Chat` takes.

## Model

| member | source | states |
|---|---|---|
| Repetition.ExtractNgrams | LLM_2.py:38-40 | there are max(0, \|ids\| - n + 1) n-grams, and the i-th is ids[i..i+n) |
| Repetition.NgramsGrow | LLM_2.py:21 | one more token adds exactly one n-gram at the end, so a later call extracts every n-gram of an earlier call again |
| Repetition.MatchCount | LLM_2.py:48-51 | the match count never exceeds the number of n-grams examined |
| Repetition.HasRepetition | LLM_2.py:42-53 | the verdict is false on an empty history. It is undefined (division by zero) exactly when the history is non-empty and there is no current n-gram |
| Repetition.RatioAsIntegers | LLM_2.py:53 | `m / L > 0.3` holds exactly when 10 m > 3 L |
| Repetition.RepetitionNeedsFewNgrams | LLM_2.py:42-53 | a repetitive verdict needs a non-empty history and 1 to 16 current n-grams, because the denominator is all n-grams, not 5 |
| Repetition.BoundedSpec | LLM_2.py:33-34 | the cut keeps a suffix. It holds at most max_history n-grams (exactly max_history when it cuts) for a positive bound, and keeps everything for a bound of 0 |
| Repetition.FreshNgramsCountAsRepeats | LLM_2.py:20-36 | on [1,2,3] then [1,2,3,4], the second call already gives a repetitive verdict although no 3-gram repeats |
| Repetition.RepetitionDetector.constructor | LLM_2.py:13-18 | empty history, count 0, the given n, threshold and bound |
| Repetition.RepetitionDetector.Call | LLM_2.py:20-36 | a repetitive verdict increments the count, any other verdict resets it to 0. True is returned exactly when the incremented count reaches the threshold, and then the history is untouched. Every False return extends the history by the current n-grams and cuts it to max_history. Division by zero gives None with nothing changed |
| Utf8.LeadLength | LLM_2.py:355 | a lead byte announces at most 4 bytes |
| Utf8.FirstLength | LLM_2.py:355 | the first character's length is at most 4 and at most the input, and agrees with the lead byte |
| Utf8.Decode | LLM_2.py:355 | a well-formed sequence decodes to no more characters than it has bytes |
| Utf8.Encode | LLM_2.py:350 | encoding gives at least one byte per character |
| Utf8.EncodeCharFirst | LLM_2.py:350 | each character encodes as one well-formed character that decodes back to it |
| Utf8.EncodeDecode | LLM_2.py:350-355 | the encoding of any text is well-formed and decodes to that text |
| Utf8.DecodeEncode | LLM_2.py:350-355 | a well-formed sequence is the encoding of its decoding |
| Utf8.ValidAppend | LLM_2.py:351-355 | concatenating well-formed sequences gives a well-formed sequence |
| Utf8.DecodeAppend | LLM_2.py:351-355 | decoding distributes over concatenation |
| Utf8.FirstOfPrefix | LLM_2.py:355 | the first character is read from its own bytes only |
| Utf8.FirstCharDetermines | LLM_2.py:355 | the first FirstLength bytes are exactly the encoding of the first character |
| SafeStream.Feed | LLM_2.py:350-361 | the bytes either all decode (to the text they encode) and the buffer empties, or they are ill-formed and the buffer keeps its last min(3, len) bytes |
| SafeStream.FeedFromEmpty | LLM_2.py:350-357 | from an empty buffer the encoding of any text decodes to that text and leaves the buffer empty |
| SafeStream.PartialCharInvalid | LLM_2.py:358-361 | a proper prefix of a character's encoding is never well-formed |
| SafeStream.FeedPartialByte | LLM_2.py:358-361 | a byte that does not complete a character leaves the whole partial encoding in the buffer |
| SafeStream.FeedLastByte | LLM_2.py:354-357 | the completing byte decodes to the character and empties the buffer |
| SafeStream.FeedCharBytes | LLM_2.py:350-361 | one character fed byte by byte comes out once, when its last byte arrives |
| SafeStream.FeedBytesReassembles | LLM_2.py:350-361 | a text fed one byte per `put` is reassembled exactly, one character per completed code point, with no byte left over. So keeping three bytes suffices |
| SafeStream.RemoveMarkers | LLM_2.py:398-400 | removing markers never lengthens the text |
| SafeStream.RemoveMarkersSpec | LLM_2.py:398-400 | the text changes exactly when some marker occurs in it, and then it gets shorter |
| SafeStream.CleanText | LLM_2.py:396-401 | the marker loop and the encode/decode round trip compute Clean(text) |
| SafeStream.CleanSpec | LLM_2.py:396-401 | cleaning leaves a text unchanged exactly when it holds none of the three markers, and otherwise shortens it |
| SafeStream.RetainedSpec | LLM_2.py:386-394 | the retained text is a suffix of at most 100 characters with no sentence end in it. It starts right after the last '。', '！', '？' or newline among the last 100 characters, or is all of the last 100 when there is none |
| SafeStream.NonFinalFlushKeepsTail | LLM_2.py:373-394 | a non-final send emits the cleaned join of the whole buffer. The buffer is unchanged when that text has at most 100 characters, and otherwise becomes one piece of at most 100 characters that ends the text just sent |
| SafeStream.SafeStreamer.constructor | LLM_2.py:325-332 | empty buffers, nothing sent, last update at the clock reading |
| SafeStream.SafeStreamer.Put | LLM_2.py:334-366 | with the stop event set, it cancels before touching anything. Otherwise the decoded bytes go through Feed, so at most three bytes remain. The text buffer is flushed, and the update time reset, only when more than 0.1 s has passed |
| SafeStream.SafeStreamer.End | LLM_2.py:368-371 | the final send: the cleaned join is emitted with True and the text buffer empties |
| SafeStream.SafeStreamer.SendUpdate | LLM_2.py:373-394 | new buffer and emitted updates are those of Flush: nothing on an empty buffer, a final send empties it, a non-final send keeps the retained tail |
| SafeStream.PutFromEmpty | LLM_2.py:350-357 | from an empty byte buffer, `put` leaves it empty and appends the decoded text |
| SafeStream.WrapText | LLM_2.py:282-294 | the lines put together are exactly the input. Each line but the last ends with the first character at which a break was allowed ('，', '。', '！', '？' or ' ' once the line minus the prefix reaches max_length). The result is the lines joined with "\n" |
| EnhancedStream.FlushSpec | LLMs/LLM.py:288-303 | a send emits exactly the buffer's concatenation, or nothing on an empty buffer. A final send empties the buffer. A non-final send leaves exactly the last min(50, n) characters of the n just sent |
| EnhancedStream.EnhancedStreamer.constructor | LLMs/LLM.py:255-260 | empty buffer, nothing sent, last update at the clock reading |
| EnhancedStream.EnhancedStreamer.Put | LLMs/LLM.py:262-282 | with the stop event set, it cancels and appends nothing. Otherwise the first row's decoded text becomes exactly one new buffer element. The buffer is flushed, and the update time reset, only when more than 0.5 s has passed |
| EnhancedStream.EnhancedStreamer.End | LLMs/LLM.py:284-286 | the final send empties the buffer |
| EnhancedStream.EnhancedStreamer.SendUpdate | LLMs/LLM.py:288-303 | new buffer and emitted update are those of Flush |
| ChatGui.TrimmedSpec | LLM_conversation_GUI.py:409-414 | trimming drops entries two at a time from the front, while the join is over 2000 characters and more than two entries remain, and no longer. It changes nothing when the join is at most 2000 characters or at most two entries are left |
| ChatGui.TrimmedKeepsEntries | LLM_conversation_GUI.py:409-414 | trimming keeps a list of prefixed turns |
| ChatGui.PrefixedContent | LLM_conversation_GUI.py:404 | `split(": ", 1)[1]` of a prefixed turn is the text after the prefix |
| ChatGui.UserBlock | LLM_conversation_GUI.py:391-392 | an entry made by `add_query(q)` becomes a "user" block with content q |
| ChatGui.AssistantBlock | LLM_conversation_GUI.py:395-396 | an entry made by `add_response(r)` becomes an "assistant" block with content r |
| ChatGui.EntryHasSeparator | LLM_conversation_GUI.py:404 | every prefixed turn holds ": ", so prompt generation never fails on the histories the class builds |
| ChatGui.ChatHistory.constructor | LLM_conversation_GUI.py:388-389 | empty history |
| ChatGui.ChatHistory.AddQuery | LLM_conversation_GUI.py:391-393 | one "用户: " entry is appended, then the history is trimmed |
| ChatGui.ChatHistory.AddResponse | LLM_conversation_GUI.py:395-397 | one "助手: " entry is appended, then the history is trimmed |
| ChatGui.ChatHistory.TrimHistory | LLM_conversation_GUI.py:409-414 | the while loop leaves exactly the trimmed history |
| ChatGui.ChatHistory.GeneratePrompt | LLM_conversation_GUI.py:399-407 | the `+=` loop yields one ChatML block per entry, in order, then the open assistant turn. Role is "user" exactly for "用户:" entries, and content is the text after the first ": " |
| ChatGui.ConsideredSpec | LLM_conversation_GUI.py:283-285 | the considered text never holds "<\|im_start\|>", and is the stripped text itself when that holds none |
| ChatGui.GUIStreamer.constructor | LLM_conversation_GUI.py:275-279 | empty buffer, the given history |
| ChatGui.GUIStreamer.OnFinalizedText | LLM_conversation_GUI.py:281-297 | a chunk is accepted only when longer than the joined buffer. Then the whole chunk is appended as one element and the new join is shown. At the end of the stream exactly one response is added (the join without "<\|endoftext\|>", stripped) and the buffer empties |
| ChatGui.WholeChunkAppended | LLM_conversation_GUI.py:289-292 | with "ab" buffered, the chunk "abc" is accepted and "ababc" is shown |
| Conversation.ChatHistory.constructor | LLM_conversation.py:15-18 | empty history with the given max_length |
| Conversation.ChatHistory.AddUserInput | LLM_conversation.py:20-21 | exactly one "用户: " entry is appended, nothing trimmed |
| Conversation.ChatHistory.AddBotResponse | LLM_conversation.py:23-24 | exactly one "助手: " entry is appended, nothing trimmed |
| Conversation.ChatHistory.PromptSpec | LLM_conversation.py:26-30 | the prompt joins the last max_length entries (all when fewer), with "\n助手: " after them. A max_length of 0 keeps every entry |
| Conversation.ExtractReplySpec | LLM_conversation.py:65-66 | the reply holds neither "用户:" nor "助手:", and is a contiguous piece of the decoded text after its first len(prompt) characters |
| Conversation.IsExitWordSpec | LLM_conversation.py:76 | the loop ends on "退出" exactly, or on "exit" or "quit" in any letter case |
| Conversation.GenerateResponse | LLM_conversation.py:44-66 | the reply is the one picked out of the model output for the history's prompt: the last 1000 entries joined by newlines, then "\n助手: " |
| Conversation.Exchange | LLM_conversation.py:80-87 | one pass appends the user entry, then the assistant entry with the reply to the history holding that user entry |
| Conversation.RecordedStep | LLM_conversation.py:69-87 | one more exchange on a line that is not an exit word keeps the record: the lines so far are no exit words, entry 2i is the i-th line, entry 2i+1 the reply to the entries before it |
| Conversation.ChatRecordedStep | LLM_conversation.py:69-87 | the same step for the chat's own reply and exit test |
| Conversation.ChatRecordedSpec | LLM_conversation.py:69-87 | the chat's record written out: no exit word so far, entry 2i is `用户: ` + line i, entry 2i+1 is `助手: ` + the reply extracted from the model output for the prompt of entries 0..2i |
| Conversation.Chat | LLM_conversation.py:69-87 | every line before the first exit word is recorded, each followed by the reply extracted from the model output for the prompt of the entries before it. The loop stops at the first exit word |
| PyStr.JoinLength | LLM_conversation.py:27 | `sep.join` has the parts' lengths plus one separator between each two |
| PyStr.TailSliceIsSuffix | LLM_conversation.py:27 | `xs[-k:]` is always a suffix of xs |
| PyStr.StripSpec | LLM_conversation.py:65-66 | `strip()` gives a contiguous piece, cuts only whitespace, and leaves no whitespace at either end |
| PyStr.StripIdempotent | LLM_conversation.py:65-66 | `strip()` is idempotent |
| PyStr.SplitHeadSpec | LLM_conversation.py:66 | `split(sep)[0]` is a prefix without sep. It is all of the input exactly when sep is absent |
| PyStr.RemoveAllSpec | LLM_2.py:400 | `replace(pat, "")` leaves a text without pat unchanged, and shortens one with pat |
| PyStr.Find | LLM_conversation.py:66 | the first index where pat occurs, or -1 exactly when it occurs nowhere |
| PyStr.AfterFirstOfPrefix | LLM_conversation_GUI.py:404 | after the first separator of `p + rest`, with the separator only at p's end, comes exactly rest |
| Game2048.CombineSpec | games/2048_game.py:133-138 | the pairing keeps the tile sum, makes no zero, keeps tiles tiles, and scores only when it combined something (then fewer tiles remain) |
| Game2048.CombineSum | games/2048_game.py:133-138 | the pairing keeps the sum of the values, whatever the values are |
| Game2048.CombineNoPairs | games/2048_game.py:133-138 | with no two equal neighbours nothing combines |
| Game2048.MergedSpec | games/2048_game.py:130-141 | `merge` keeps the length and the tile sum and puts every non-zero tile before every zero. It never adds a tile and keeps tiles tiles. Its score is never negative and is positive only when the row changes |
| Game2048.MergedStuck | games/2048_game.py:130-141 | a full row without equal neighbours does not change |
| Game2048.MergeExample | games/2048_game.py:133-138 | [2,2,2,2] merges to [4,4,0,0] scoring 8: a combined tile is not combined again |
| Game2048.Merge | games/2048_game.py:130-141 | the pop/append pass loop returns the merged row and its score |
| Game2048.SlidIsArrange | games/2048_game.py:82-117 | the moved grid is the merged lines written back in the direction of the move |
| Game2048.RowOfArrange | games/2048_game.py:82-96 | after "left" a row is its merged row, and after "right" the merge of the reversed row, reversed back |
| Game2048.ColumnOfArrange | games/2048_game.py:98-117 | after "up" a column is its merged column, and after "down" the merge of the reversed column, reversed back |
| Game2048.SlideSpec | games/2048_game.py:78-117 | a move keeps the grid 4x4 and its cells tiles. It keeps the tile sum, never lowers the score, and scores nothing when the grid does not change |
| Game2048.LineUnchanged | games/2048_game.py:85-113 | when the grid does not change, every line merged into itself |
| Game2048.GameOverStuck | games/2048_game.py:143-157 | when the game is over no direction moves anything or scores |
| Game2048.EmptyCells | games/2048_game.py:62-63 | the list holds every cell holding 0 and nothing else, in row-major order |
| Game2048.EmptyFromSpec | games/2048_game.py:62-63 | the cells listed from a row-major position on are exactly the cells at or after it that hold 0 |
| Game2048.EmptyFromOrdered | games/2048_game.py:62-63 | the cells listed from a row-major position on come in strictly increasing row-major order, as the nested comprehension over i then j lists them |
| Game2048.EmptyFromAfterSet | games/2048_game.py:66 | setting an empty cell removes exactly that cell from the empty cells |
| Game2048.SpawnSpec | games/2048_game.py:61-66 | on a full grid nothing changes. Otherwise one empty cell gets a 2 (roll < 0.9) or a 4 and every other cell keeps its value. One empty cell fewer remains and the sum grows by the new tile |
| Game2048.StartSpec | games/2048_game.py:54-58 | a new game shows exactly two tiles, each 2 or 4, and nothing else |
| Game2048.Game.constructor | games/2048_game.py:25-28 | score 0 and the grid of StartGame's two spawns |
| Game2048.Game.StartGame | games/2048_game.py:54-58 | score 0 and an empty grid with two tiles added |
| Game2048.Game.AddNewTile | games/2048_game.py:61-66 | the grid becomes Spawn of the old grid |
| Game2048.Game.SlideRows | games/2048_game.py:82-96 | the row loop leaves the moved grid and adds the move's points. `moved` is set exactly when the grid changed |
| Game2048.Game.SlideColumns | games/2048_game.py:98-117 | the column loop leaves the moved grid and adds the move's points. `moved` is set exactly when the grid changed |
| Game2048.Game.CheckGameOver | games/2048_game.py:143-157 | true exactly when no cell is 0 and no two neighbours across or down are equal |
| Game2048.Game.Move | games/2048_game.py:78-128 | `moved` holds exactly when the merged grid differs from the old one. A tile is spawned only then. If the game is then over, a new game starts with score 0. Otherwise the grid is the spawned grid and the score grows by the move's points. The grid stays 4x4 with tile cells |
| TetrisBoard.ShapesArePieces | games/tetris_game.py:12-20 | each of the seven shapes is a rectangle with a block |
| TetrisBoard.Rotate | games/tetris_game.py:99 | the turned piece swaps the row and column counts |
| TetrisBoard.RotateTwice | games/tetris_game.py:99 | two turns stand the piece on its head |
| TetrisBoard.RotateFour | games/tetris_game.py:99 | four turns give back the piece |
| TetrisBoard.RotateKeepsPiece | games/tetris_game.py:99 | a turned piece is still a piece |
| TetrisBoard.CheckCollision | games/tetris_game.py:104-114 | the scan answers true exactly when some block is off the sides, below the bottom, or on a filled cell at row >= 0 |
| TetrisBoard.FitsOnBoard | games/tetris_game.py:104-114 | a non-colliding piece has every block inside the columns, above the bottom, and over an empty cell |
| TetrisBoard.StampPiece | games/tetris_game.py:116-120 | the loops write each block's colour at its cell and change nothing else |
| TetrisBoard.StampedSpec | games/tetris_game.py:116-120 | a fitting piece lands on empty cells only: filled cells stay, blocks show their colours, only the piece's cells change |
| TetrisBoard.KeepNonFullMembers | games/tetris_game.py:124-130 | the kept rows are exactly the rows that are not full |
| TetrisBoard.ClearedSpec | games/tetris_game.py:122-130 | the board stays 20x10 with no full row. The non-full rows stay in order at the bottom under as many empty rows as were removed. Nothing changes when no row is full |
| TetrisBoard.ClearedIdempotent | games/tetris_game.py:122-130 | clearing a cleared board changes nothing |
| TetrisBoard.FindFullLines | games/tetris_game.py:123-126 | the first loop lists exactly the full rows, top to bottom |
| TetrisBoard.ClearLines | games/tetris_game.py:122-130 | the delete-and-insert loop leaves the cleared board and counts the removed rows |
| Tetris.Tetris.constructor | games/tetris_game.py:23-51 | after the setup and the first game-loop run the invariant holds: a 20x10 board, a score in whole hundreds, and a falling piece at or below the top that does not collide |
| Tetris.Tetris.GameOver | games/tetris_game.py:136-139 | the piece is dropped, nothing else changes |
| Tetris.Tetris.NewPiece | games/tetris_game.py:53-62 | the shape appears at row 0, column 10 // 2 - width // 2. It answers false and drops the piece exactly when it collides there |
| Tetris.Tetris.Move | games/tetris_game.py:87-90 | the piece shifts only where it does not collide |
| Tetris.Tetris.Drop | games/tetris_game.py:92-95 | the piece falls a row only where it does not collide |
| Tetris.Tetris.RotatePiece | games/tetris_game.py:97-102 | the piece turns only where the turned piece does not collide |
| Tetris.Tetris.MergePiece | games/tetris_game.py:116-120 | the board becomes the stamped board |
| Tetris.Tetris.ClearLines | games/tetris_game.py:122-134 | the board becomes the cleared board and the score grows by 100 per removed row |
| Tetris.Tetris.GameLoop | games/tetris_game.py:141-153 | the loop ends exactly when no piece was falling and the new one cannot enter, and then board and score are unchanged and no piece is falling. Otherwise the invariant is kept (the falling piece never collides) and the score never falls |
| Tetris.EntersEmptyBoard | games/tetris_game.py:53-62 | every shape enters an empty board |
| TetrisPro.SpeedSpec | games/tetris_pro_game.py:120-124 | from level 1 on the delay lies in [50, 500] ms and never grows with the level |
| TetrisPro.LevelForGrows | games/tetris_pro_game.py:129 | more cleared rows never give a lower level |
| TetrisPro.LandingYSpec | games/tetris_pro_game.py:172-173 | the hard drop stops at the deepest row reached without a collision, and the row below collides |
| TetrisPro.DealKeepsOrder | games/tetris_pro_game.py:88-91 | dealing keeps the dealt shapes and the bag one permutation of the seven shapes |
| TetrisPro.TetrisPro.constructor | games/tetris_pro_game.py:23-72 | after the setup and the first game-loop run the invariant holds. The board is 20x10 and the level is the one the cleared rows give. The dealt shapes and the bag are one permutation of the seven shapes. The falling piece does not collide |
| TetrisPro.TetrisPro.InitBag | games/tetris_pro_game.py:74-79 | the next piece is the permutation's first shape and the bag holds the rest |
| TetrisPro.TetrisPro.NewPiece | games/tetris_pro_game.py:81-96 | the next piece enters at row 0, centred. The bag is refilled when empty and its first shape becomes the next piece. It answers false and drops the piece exactly when it collides |
| TetrisPro.TetrisPro.UpdateLevel | games/tetris_pro_game.py:126-132 | the level rises to lines // 10 + 1 when that is higher, and never falls |
| TetrisPro.TetrisPro.Move | games/tetris_pro_game.py:160-163 | the piece shifts only where it does not collide |
| TetrisPro.TetrisPro.Drop | games/tetris_pro_game.py:165-168 | the piece falls a row only where it does not collide |
| TetrisPro.TetrisPro.RotatePiece | games/tetris_pro_game.py:180-185 | the piece turns only where the turned piece does not collide |
| TetrisPro.TetrisPro.MergePiece | games/tetris_pro_game.py:199-203 | the board becomes the stamped board |
| TetrisPro.TetrisPro.ClearLines | games/tetris_pro_game.py:205-220 | the board becomes the cleared board. The score grows by lines x 100 x the level before the update. The lines are added to the total, then the level is updated |
| TetrisPro.TetrisPro.HardDrop | games/tetris_pro_game.py:170-178 | the board becomes the cleared board after stamping the piece at its landing row. Score and cleared lines grow by that clearing, and the level follows the lines total. The next shape becomes the falling piece, at its spawn column in row 0, unless it collides. The bag (refilled when empty) gives the following shape and loses it. Without a falling piece no field changes |
| TetrisPro.TetrisPro.FallToLanding | games/tetris_pro_game.py:172-173 | the while loop stops at the landing row |
| TetrisPro.TetrisPro.Settle | games/tetris_pro_game.py:174-177 | the board becomes the cleared board after stamping the piece where it stands. The score grows by 100 x the old level per full row. The next shape falls unless it collides, entering at its spawn column in row 0. The bag (refilled when empty) gives the following shape and loses it |
| TetrisPro.TetrisPro.GameLoop | games/tetris_pro_game.py:227-239 | the loop ends exactly when no piece was falling and the next one cannot enter, and then board and score are unchanged. Otherwise the next run is scheduled after Speed(level) ms, between 50 and 500. The invariant is kept, and score and level never fall |
| TetrisPro.TetrisPro.Advance | games/tetris_pro_game.py:232-236 | the piece falls a row where it can. If the row below then collides, the board becomes the stamped board, cleared. Score, cleared lines and level grow accordingly, and the next shape enters at its spawn column in row 0 unless it collides, with the bag (refilled when empty) giving the following shape. Otherwise only the row changes: board, score, piece, column, level, cleared lines, next shape and bag stay |
| TetrisPro.TetrisPro.SettleIfLanded | games/tetris_pro_game.py:233-236 | a piece whose next row collides settles: stamped and cleared board, score, cleared lines and level, and the next shape entering from the bag as in Settle. Any other piece stays, and nothing else changes |
| GobangRules.Other | games/gobang_game.py:78-80 | the other player is the one of 1 and 2 that is not the current one |
| GobangRules.Placed | games/gobang_game.py:76 | exactly cell (row, col) takes the player's colour, and the board keeps its shape and its 0/1/2 cells |
| GobangRules.CheckWin | games/gobang_game.py:83-109 | the four directional while loops answer exactly Wins: some direction counts five or more. The scans never leave the board |
| GobangRules.RunAtLeast | games/gobang_game.py:95-105 | a run reaches k exactly when the first k cells along it hold the colour |
| GobangRules.LineIffFive | games/gobang_game.py:92-108 | along one direction the count reaches five exactly when five stones in a row pass through the cell |
| GobangRules.WinsIffFiveInARow | games/gobang_game.py:83-109 | `check_win` is true exactly when five stones of the colour stand in a row through the new stone |
| GobangRules.NoWinOnEmptyBoard | games/gobang_game.py:114 | no colour wins on the empty board |
| Gobang.Gobang.constructor | games/gobang_game.py:15-16 | empty 15x15 board, black to move |
| Gobang.Gobang.PlacePiece | games/gobang_game.py:70-76 | exactly the chosen cell becomes the current player |
| Gobang.Gobang.SwitchPlayer | games/gobang_game.py:78-80 | the players alternate 1 and 2 |
| Gobang.Gobang.ResetGame | games/gobang_game.py:111-116 | empty board, black to move |
| Gobang.Gobang.ClickHandler | games/gobang_game.py:51-68 | off-board or occupied clicks change nothing. A winning move ends with an empty board and black to move, and any other move places the stone and passes the turn |
| GobangPro.RecolouredSpec | games/gobang_pro_game.py:146-149 | after the redraw the occupied cells are the snapshot's, each holding the restored player |
| GobangPro.GobangPro.constructor | games/gobang_pro_game.py:16-27 | empty board, black to move, no history, and black's clock at 1 after the first tick |
| GobangPro.GobangPro.PlacePiece | games/gobang_pro_game.py:95-101 | exactly the chosen cell becomes the current player |
| GobangPro.GobangPro.SwitchPlayer | games/gobang_pro_game.py:103-105 | the players alternate 1 and 2 |
| GobangPro.GobangPro.UpdateTimer | games/gobang_pro_game.py:159-164 | a tick adds 1 to the mover's clock only |
| GobangPro.GobangPro.ResetGame | games/gobang_pro_game.py:175-188 | empty board, black to move, no history, clocks at 0. The restarted timer then ticks once, so black shows 1 |
| GobangPro.GobangPro.ClickHandler | games/gobang_pro_game.py:72-93 | an accepted move pushes exactly one snapshot of the state before it and places the stone. Earlier entries are unchanged. A win resets the game, and any other move passes the turn |
| GobangPro.GobangPro.Undo | games/gobang_pro_game.py:133-153 | with no history nothing changes. Otherwise the last snapshot is popped, its player and clocks are restored, and its board is restored recoloured to that player |
| GobangPro.GobangPro.RedrawStones | games/gobang_pro_game.py:146-149 | the redraw loops place every stone again in the current player's colour |
| Snake.NextHeadSpec | games/snake_game.py:85-92 | the head moves to a neighbouring cell, and the opposite direction moves it back |
| Snake.SpeedForSpec | games/snake_game.py:109-110 | the delay stays in [80, 200] and never grows with the score |
| Snake.SpeedForStep | games/snake_game.py:105-110 | an eating step lowers the delay by 20, floored at 80, exactly when the new score is a multiple of 3 and the delay is above the floor |
| Snake.SnakeGame.constructor | games/snake_game.py:14-56 | the start snake heading right with delay 200 ms, then the first step: the head at (11, 10), and either the food was there (score 1, snake grown, new food) or the tail was dropped (score 0, food kept). The invariant (distinct in-grid cells, food off the snake, length 3 + score, delay by score) holds |
| Snake.SnakeGame.CreateFood | games/snake_game.py:58-64 | the food goes to the chosen grid cell off the snake |
| Snake.SnakeGame.ChangeDirection | games/snake_game.py:70-77 | an arrow key turns the snake unless it points straight back. Other keys change nothing, and the direction is never the opposite of the old one |
| Snake.SnakeGame.Update | games/snake_game.py:79-115 | after game over nothing changes. A head off the grid or on any cell (tail included) ends the game and changes nothing else. Eating keeps the tail, adds a point and may lower the delay; otherwise the tail is dropped. The invariant is kept |
| Snake.SnakeGame.MoveHead | games/snake_game.py:102-115 | with a free in-grid head, eating keeps the tail, adds a point, places the new food and may lower the delay. Not eating drops the tail. The invariant is kept |
| Snake.SnakeGame.RestartGame | games/snake_game.py:161-174 | the start snake heading right, score 0, delay 200, no game over, then one step |
| Binomial.Pascal | math_solver/hypgeom_dist.py:15-25 | Pascal's rule for every k |
| Binomial.BinomPositive | math_solver/hypgeom_dist.py:17-20 | C(n, k) is positive exactly on 0 <= k <= n |
| Binomial.Symmetry | math_solver/hypgeom_dist.py:21 | C(n, k) = C(n, n - k) |
| Binomial.Absorption | math_solver/hypgeom_dist.py:24 | k C(n, k) = n C(n - 1, k - 1) |
| Binomial.Vandermonde | math_solver/hypgeom_dist.py:66 | the sum over k of C(a, k) C(b, n - k) is C(a + b, n) |
| Hypgeom.Comb | math_solver/hypgeom_dist.py:15-25 | the loop returns exactly C(n, k) |
| Hypgeom.CombStep | math_solver/hypgeom_dist.py:24 | each floor division is exact and yields C(n - k + i, i) |
| Hypgeom.SupportNonEmpty | math_solver/hypgeom_dist.py:37-46 | for valid parameters 0 <= k_min <= k_max <= n, so the "invalid combination" exit is unreachable |
| Hypgeom.SupportExact | math_solver/hypgeom_dist.py:42-43 | C(M, k) C(N - M, n - k) is positive exactly on [k_min, k_max] |
| Hypgeom.Distribution | math_solver/hypgeom_dist.py:48-55 | the map has exactly the keys k_min..k_max, each mapped to C(M,k) C(N-M,n-k) / C(N,n) |
| Hypgeom.ProbabilitiesSumToOne | math_solver/hypgeom_dist.py:66 | the probabilities over [k_min, k_max] sum to exactly 1 |
| Hypgeom.Total | math_solver/hypgeom_dist.py:66 | the summing loop gives the sum of the entries |
| Hypgeom.TotalIsOne | math_solver/hypgeom_dist.py:66 | the entries of the distribution sum to 1 |
| Hypgeom.Expectation | math_solver/hypgeom_dist.py:58 | nM/N lies between 0 and n |
| Hypgeom.Variance | math_solver/hypgeom_dist.py:59 | the variance is never negative |
| Hypgeom.MeanIsExpectation | math_solver/hypgeom_dist.py:58 | the sum of k P(X = k) over the support is exactly nM/N |
| Hypgeom.KVandermonde | math_solver/hypgeom_dist.py:58 | the sum of k C(a,k) C(b,n-k) is a C(a+b-1, n-1) |
| Hypgeom.K2Vandermonde | math_solver/hypgeom_dist.py:59 | the sum of k(k-1) C(a,k) C(b,n-k) is a(a-1) C(a+b-2, n-2) |
| Hypgeom.SecondMoment | math_solver/hypgeom_dist.py:59 | the sum of k(k-1) P(X = k) is n(n-1)M(M-1) / (N(N-1)) |
| Hypgeom.VarianceAlgebra | math_solver/hypgeom_dist.py:59 | the second factorial moment plus the mean minus its square is E (N-M)/N (N-n)/(N-1) |
| Hypgeom.VarianceIsSpread | math_solver/hypgeom_dist.py:59 | the sum of (k - E)^2 P(X = k) over the support is exactly the printed variance, 0 when N = 1 |
| Hypgeom.Solve | math_solver/hypgeom_dist.py:36-68 | out-of-range parameters give the range error exactly. Otherwise it reports the exact distribution, a total of exactly 1, the expectation and the variance |
| FractionText.DigitsRoundTrip | math_solver/hypgeom_dist.py:8 | a natural is written as digits with no leading zero that read back as it |
| FractionText.IntTextRoundTrip | math_solver/hypgeom_dist.py:8-9 | the text of an int reads back as it and holds no '/' |
| FractionText.FormatFractionRoundTrip | math_solver/hypgeom_dist.py:5-9 | the printed fraction reads back as its numerator and denominator. It shows '/' exactly when the denominator is not 1 |
| FractionText.FormatFractionInjective | math_solver/hypgeom_dist.py:5-9 | different numerator/denominator pairs print differently |

## Left out

- Windows, canvases, labels, message boxes, drawing and `after()` scheduling are not modelled. A scheduled call is a separate method call. Both `GameLoop`s answer whether the loop would be rescheduled; `TetrisPro.TetrisPro.GameLoop` also answers after how many milliseconds. The fixed 500 ms delay of the plain Tetris loop is not modelled.
- Threads, queues, locks and the watchdog loops are not modelled. The queue is the `sent` sequence, and the stop event is a boolean parameter.
- Model loading, `model.generate` and the tokenizer are foreign code. Their outputs (decoded text, decoded bytes, model output) are parameters.
- `time.time()` readings are parameters (`now`, `later`). `random.*` draws are parameters constrained by preconditions.
- Tetris.Tetris.constructor, TetrisPro.TetrisPro.constructor, Tetris.Tetris.GameLoop and TetrisPro.TetrisPro.GameLoop: these contracts state the invariant and when the loop ends, not the whole new board. `MergePiece`, `ClearLines`, `Settle` and `Advance` state the board.
- Snake.SnakeGame.CreateFood: `create_food`'s retry loop is modelled by the cell it settles on, a free grid cell given as a parameter; termination of the random loop is not modelled.
- Floating point is not modelled. The snake's `calculate_speed` only feeds a label. The pixel-to-cell `round` in the Gobang click handlers is left out, so the handlers take the cell.
- Repetition.HasRepetition: `m / L > 0.3` on binary64 floats is modelled as the exact rational test. For m <= 5 only 3/10 equals 0.3, and `3 / 10 == 0.3` holds in binary64, so the two agree. The ZeroDivisionError is modelled as `None`.
- Hypgeom.Comb: the model follows the fallback `comb` of lines 15-25. `math.comb`, used from Python 3.10 on, returns the same numbers for the non-negative arguments the script passes, as `Binomial.Binom` states. On negative arguments `math.comb` raises ValueError, while the fallback returns 0.
- Reading N, M and n with `input()` and the `exit()` calls are replaced by `Solve`'s parameters and its `RangeError` result. The "invalid combination" exit (lines 44-46) is not modelled as a result, because `SupportNonEmpty` proves it unreachable.
- FractionText.FormatFraction: it takes the numerator and denominator as given. The lowest-terms normalisation `Fraction` performs is not modelled, and `Solve` reports the values as exact reals rather than as formatted text. The float approximations printed with `:.4f` are not modelled.
- TetrisPro.TetrisPro.InitBag: the refill after the first pop (lines 78-79) is dead code, since six shapes always remain.
- TetrisPro.TetrisPro.HardDrop: without a falling piece, the source's `check_collision(..., None)` raises TypeError. The model changes nothing in that case.
- Printing the winner, the final score and "game over" text is drawing only and not modelled.
- Gobang's `check_win` is the same in both games and is modelled once, in `GobangRules`.
- GobangPro.GobangPro.ResetGame: the clocks are set to 0, but `start_timer` then ticks at once (lines 186-188), so black's clock shows 1. The model follows the code.
- Conversation.Chat: when the lines in `inputs` run out, the model ends the loop normally. In the source, `input()` then raises EOFError and the script stops with a traceback.
- Snake.SnakeGame.constructor and Snake.SnakeGame.RestartGame: both end by calling `update`, so one step runs at once. The model includes that step.
- The chat windows' `send_message`, `generate_response`, `_update_stream`, history save/load and model switching are foreign calls and I/O around the modelled classes. They are not modelled.
