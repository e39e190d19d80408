# Live transcription handler: a verified model

This project models the one stateful piece of the meeting assistant: the
WebSocket endpoint `/ws/transcribe` of `main.py` (`websocket_endpoint`). For each
connection the handler keeps an ordered list of received audio chunks. It appends
every binary message to that list and counts its samples as total bytes divided
by two, rounded down. While the count is below `BUFFER_SIZE_SAMPLES` (16,000 × 5 =
80,000) it keeps waiting. Otherwise it joins the whole list into one payload and
empties the list. It then reads the payload as int16 samples and sends them to
Whisper, and it sends the transcript text back as one message. Any exception
ends the loop and the connection.

The model is functional:

- `Chunks`: byte chunks, their joined form (`Flatten`) and their summed length
  (`TotalBytes`).
- `Pcm`: the little-endian int16 reinterpretation of a payload (`Decode`) and
  its inverse (`Encode`).
- `Flushing`: the threshold constants. It also defines a declarative
  segmentation of a chunk stream into flush groups plus a remainder, and
  proves that this segmentation is unique.
- `Handler`: the connection record (`Connection`), the events the handler waits
  for (`Chunk`, `Disconnect`, `TranscribeOk`, `TranscribeFail`), the step
  function (`Step`), traces (`Run`), and the invariant every reachable state
  keeps (`Inv`).
- `Scenarios`: concrete connections over chunks of given sizes.

The Whisper call is not a function of the audio in this model. Its outcome is an
event: `TranscribeOk(text)` or `TranscribeFail`. So every property holds whatever
Whisper answers.

Three consequences of the code are easy to miss:

- A flush takes the whole buffer, final chunk included. So one chunk of 160,000
  samples gives a single flush, not two (`Scenarios.OneLargeChunk`). The flushes
  fall exactly where `Flushing.IsSegmentation` says (`Handler.FlushesFollowChunks`).
- The `try` encloses the whole `while True` loop. So a failed transcription ends
  the handler rather than only that flush (`Handler.ReplyToFlush`, `Handler.ClosedIsFinal`).
- `np.frombuffer` with dtype int16 raises on a payload of odd length. That ends
  the handler after the buffer has already been cleared (`Scenarios.OddPayload`).

## Model

| member | source | states |
|---|---|---|
| `Chunks.TotalBytesIsLength` | main.py:126-133 | The summed chunk lengths the handler computes are exactly the length of the joined payload. |
| `Chunks.BufferedBytes` | main.py:126 | The loop that sums chunk lengths returns the byte length of the joined buffer. |
| `Chunks.FlattenAppend` | main.py:124-133 | Joining a buffer after appending chunks gives the old joined bytes followed by the new ones. |
| `Chunks.FlattenNested` | main.py:133 | Joining the flushed payloads gives all flushed chunks' bytes in order. |
| `Pcm.Samples` | main.py:137 | Sample `i` of a payload is the little-endian two's-complement value of bytes `2i` and `2i+1`, and there are half as many samples as bytes. |
| `Pcm.Decode` | main.py:137 | The int16 reinterpretation succeeds exactly when the payload has an even byte count. The samples it returns store back into exactly that payload, so the reinterpretation loses nothing (partner lemmas `Pcm.EncodeSamples`, `Pcm.DecodeEncode`). |
| `Pcm.EncodeSamples` | main.py:137 | The samples read from any even-length payload store back into exactly that payload. |
| `Pcm.DecodeEncode` | main.py:137 | Decoding the bytes that store a sample sequence gives that sequence back. |
| `Pcm.SampleOfBytesOf` | main.py:137 | Every int16 value is read back unchanged from its two little-endian bytes. |
| `Pcm.BytesOfSampleOf` | main.py:137 | Every pair of bytes is the storage of the sample read from it. |
| `Flushing.BelowThresholdInBytes` | main.py:119-130 | The threshold is 160,000 bytes. The test "samples (bytes div 2) below 80,000" holds exactly when the joined buffer is shorter than 160,000 bytes. |
| `Flushing.SegmentationIsUnique` | main.py:123-134 | A chunk stream splits in at most one way into flush groups (each reaches the threshold only with its last chunk) plus a remainder below the threshold. |
| `Handler.Receive` | main.py:123-137 | One iteration on a received chunk: append, count, then wait again or join, clear and decode. Its contract is carried by `Handler.ReceiveChunk` and `Handler.StepKeepsInv`. |
| `Handler.Step` | main.py:121-152 | One event of the loop: a chunk, a failed receive, or the transcription outcome and reply. Its contract is carried by `Handler.ReceiveChunk`, `Handler.ReplyToFlush`, `Handler.DisconnectCloses` and `Handler.StepKeepsInv`. |
| `Handler.Run` | main.py:116-159 | The state after a trace of events, starting from the accepted connection. Its contract is carried by `Handler.RunKeepsInv`, `Handler.RunBounds`, `Handler.Conservation` and `Handler.ClosedIsFinal`. |
| `Handler.ReceiveChunk` | main.py:123-137 | A chunk received while waiting is appended at the end and recorded, and nothing is sent. The handler flushes on it exactly when the joined buffer reaches 160,000 bytes. A flush takes the whole buffer with the final chunk unsplit and empties the buffer. It then either transcribes samples that encode exactly that payload or, on an odd byte count, ends with a decode error. |
| `Handler.ReplyToFlush` | main.py:145-159 | A message is sent only when a pending flush gets a transcript. The message is that text unchanged, at the index of the flush it answers. A failed transcription ends the handler without a message, with the buffer already empty. Every event other than a chunk received while waiting leaves the buffer, the received chunks and the flushes unchanged. |
| `Handler.DisconnectCloses` | main.py:121-130 | A failed receive while waiting ends the handler with a receive error and changes nothing else: the buffered remainder is dropped, not flushed. |
| `Handler.StepKeepsInv` | main.py:121-159 | Every event keeps the invariant. Received chunks are the flush groups followed by a buffer below the threshold. There is one message per finished flush. Samples under transcription encode the last flush's payload. |
| `Handler.RunKeepsInv` | main.py:116-159 | Every state reachable from the accepted connection satisfies the invariant. |
| `Handler.RunBounds` | main.py:118-134 | At the start of every receive the buffer holds fewer than 160,000 bytes. Every flushed payload holds at least 160,000 bytes. Messages trail flushes by at most one, and by none while waiting for audio. |
| `Handler.Conservation` | main.py:123-134 | The flushed payloads in order, followed by the buffered bytes, are exactly the bytes received so far: nothing is lost, duplicated or reordered. |
| `Handler.FlushesFollowChunks` | main.py:123-134 | Two connections that received the same chunks flushed the same groups and hold the same buffer, whatever the transcription outcomes. |
| `Handler.ClosedIsFinal` | main.py:121-159 | Once the loop has ended, later events change nothing. No further message is sent, the remainder is never flushed, and a failed flush is not retried. |
| `Handler.Serve` | main.py:121-159 | The receive loop consumes events until the handler ends or the events run out. Its state is the trace's state, and any events left unconsumed would not have changed it. |
| `Scenarios.TwoChunksBuffered` | main.py:123-130 | Chunks of 40,000 and 20,000 samples are only buffered, in order: no flush and no message. |
| `Scenarios.ThreeChunks` | main.py:118-141 | After 40,000, 20,000 and 30,000 samples the handler flushes once, on the third chunk, with all 90,000 samples and an empty buffer, and sends nothing yet. |
| `Scenarios.ThreeChunksReply` | main.py:145-152 | Whisper's answer to that flush is the one message sent. |
| `Scenarios.ShortConnection` | main.py:123-159 | A connection that sends 50,000 samples and disconnects flushes nothing, sends nothing and ends with the receive error. |
| `Scenarios.OneLargeChunk` | main.py:126-137 | One chunk of 160,000 samples is flushed once as a whole. |
| `Scenarios.FailedTranscription` | main.py:133-159 | When Whisper fails on the first flush, the handler ends without a message and reads no further chunk. The flushed audio is not flushed again. |
| `Scenarios.OddPayload` | main.py:133-137 | A payload of 160,001 bytes is flushed, fails to decode and ends the handler without a message. |

## Left out

- `query_meetings` and `transcribe_and_summarize_audio` (main.py:30-107): the two HTTP endpoints only call the embedding, chat-completion, Whisper and ChromaDB APIs and have no logic of their own.
- The Whisper request (main.py:145-148): it is an external service. Its outcome is an event (`TranscribeOk(text)` or `TranscribeFail`), and no relation between audio and text is assumed.
- WAV construction with `scipy.io.wavfile.write` (main.py:140-142): it is a foreign library. The model stops at the decoded int16 samples.
- A failing `send_text` (main.py:152) is not a separate event. It raises and ends the loop like a failed transcription, so `TranscribeFail` stands for both.
- Events the handler is not waiting for (a chunk while Whisper is working, a transcript while waiting for audio) leave the state unchanged. The sequential handler never sees them at that point.
- `Pcm.Decode` reads samples little-endian. The client sends its int16 frames in its host byte order (capture_and_stream.py:20,26), and the server reads them with the native `np.int16` (main.py:137). The model fixes little-endian, the x86 and ARM order; a big-endian host is not modelled.
- `accept`, the WebSocket close, and all `print` and traceback logging (main.py:116-117, 151, 155-159) are I/O with no effect on the state.
- capture_and_stream.py (the microphone callback, the asyncio queue, and the concurrent sender and receiver tasks) is concurrency and device I/O. It is not part of this model.
- ingest_memory.py, check_memory.py, database_setup.py and check_env.py are database, embedding and environment scripts made only of external calls and printing. They are not part of this model.
