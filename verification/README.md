# Verified models of OpenJFX's stateful tools

Dafny models of the parts of the repository that keep state over long runs, and proofs of what they
are for. `dafny verify dfyconfig.toml` checks everything.

* **The OpenGL tracer** (`Wire`, `Stream`, `Opcodes`, `Records`, `Calls`, `Trace`, `Encoding`,
  `TraceWriter`, `Recorder`, `TraceReader`, `Replayer`, `RoundTrip`, `Client`, `DrawReplay`, `Shown`,
  `Threads`). Bytes, words, records, whole runs. The writer is a class over a window that slides over the
  file, the recorder a class whose methods are the intercepted calls, the reader a cursor, the replayer the
  loop of `process`. The layout of a `glDrawElements` record depends on earlier records; the proofs carry
  the two sides' states in step. `RoundTrip.RecordAndReplay` is the end-to-end statement. What should be
  shown is told from the calls alone: `Client` reads them as OpenGL ES does, `DrawReplay` is about draws,
  `Shown` about all fields. `Threads` is about several threads over the recursive lock.
* **The terminal** (`EscapeParser`, `ParserChunks`, `ControlPrinter`, `Sgr`, `GraphicRendition`,
  `StyleAttribute`, `Dom`, `Erase`, `StyledOutput`, `StyledTerminal`, `TerminalRun`, `HostOutput`,
  `HostDisplay`). The escape parser fed in chunks, which counts columns and breaks overlong lines; the style
  engine that splits and nests spans around the cursor, and the deletion that crosses them, on a document
  held as a zipper; and all together: `HostOutput.HostOutputIsPainted` and `HostDisplay.Display`.
  `NodeWriter` is the printer that goes with it.
* **The native event queue** (`EventQueue`, `EventLoop`). The intrusive list on the heap, and its
  threads as a transition system over mutex and condition variable.
* **Smaller pieces**: the grid mesh (`Mesh`, `MeshBuilder`), the slide show's prefetch slots
  (`FileCursor`, `SlideShow`), the string ring of the tracer (`EnumStrings`), numerals (`Numerals`,
  `Arithmetic`).

Where a property does not hold of the code for all inputs, the theorem is an equivalence that says for
which it does. These are: pointers of 32-bit traces (`Wire.WidenIsExact`), NULL and marker floats
(`Records.GetFloatvIsConsumed`), shader strings with an explicit length of 0
(`Calls.ShaderTextSurvives`), vertices beyond the count that the recorder guesses
(`DrawReplay.DrawIsFaithful`), commands and attribute lists that the replayer gives up on
(`Trace.ReplayWholeTrace`), cuts in the host's output (`ParserChunks.ChunkIndependence`), parameters of
2^31 and more (`ControlPrinter.PrintThenParse`), texts with their own end in them
(`ControlPrinter.OscThenParse`), overlong lines (`HostOutput.HostOutputIsPainted`), the
negative image and the aspects without a style (`GraphicRendition.LooksTheSame`,
`HostOutput.LooksAsSpecified`), unstyled elements inside styled ones (`StyledOutput.AdjustExactly`), the
tag and std attribute of a split element (`Dom.PopKeepsAll`), texts with a backslash
(`NodeWriter.WriteDataInvertible`), and attribute values with '<' (`NodeWriter.AttributesKeepLess`).

The code was followed where a comment says otherwise: `abbrevRepeatedMinimum` abbreviates runs of at
least that many characters, not more than that many, and 0 does not switch it off
(NodeWriter.java:69-72 against :81-84 and :104); `glDrawElements` records count their vertices by the
formula of getVertexCount that is compiled in, not by the indices; a trace with other version numbers
is reported but read all the same (iolib.c:98-104).

Results of the original GL and EGL calls, clock readings, thread identities, and the coordinates and
normals of the mesh are parameters. So are three answers of the terminal to its parser, each a function
of the actions so far: whether the cursor is on the last line of the scroll region, its cached column and
its computed column (`EscapeParser.Screen`), and what insert mode trims off a line
(`StyledTerminal.Trimming`).

## Model

| member | source | states |
|---|---|---|
| `RoundTrip.RecordAndReplay` | tools/gltrace/retrace.c:2468-3657 | Recording any run of calls through the windowed writer and replaying the file shows the recorded calls, told by all their fields, with their threads and times and in order, up to the first that the replayer gives up on; it ends at the end of the trace, if and only if the replayer implements every command of the run and has room for every attribute list |
| `RoundTrip.RecordAll` | tools/gltrace/iolib.c:51-118 | The file that iolib_fini leaves is the header followed by the bytes of the run, whatever the window size |
| `RoundTrip.FileOpens` | tools/gltrace/iolib.c:82-106 | The recorded file passes the version check, tells the pointer size, and its words after the header are the words of the run |
| `Shown.RecordTells` | tools/gltrace/gles.c:962-985 | The command shown for a call says, field by field, what the call was: every number, name, string with its length, attribute pair, handle and address, the client's indices as far as the type's width and the count reach, and for each enabled array the bytes of every vertex of the quads drawn, by the bindings and pointers that the calls before it left |
| `Shown.ReplayTells` | tools/gltrace/retrace.c:2468-3657 | Of any run the replayer shows the calls up to the first that it does not implement or whose attribute list is too long, and reaches the end, if and only if there is none |
| `Client.CallLeaves` | tools/gltrace/gles.c:261-283 | The recorder's variables are what the calls so far leave: the last buffer bound to each target, whether the last switch of an array was on, and the last pointer given for it |
| `Trace.ReplayWholeTrace` | tools/gltrace/retrace.c:2468-3657 | On words: process delivers exactly the recorded run, if and only if every command is implemented and every attribute list fits |
| `Trace.ReplayRun` | tools/gltrace/retrace.c:2468-3657 | For any run and anything after it: the records are shown in order, each consumed to its last word, and the replayer's bindings, enabled set, array formats, thread and frame count then match the recorder's |
| `Trace.ReplayEvent` | tools/gltrace/retrace.c:2473-3656 | One turn of the loop on one record gives its command and a state in step with the recorder's |
| `Trace.ReplayStops` | tools/gltrace/retrace.c:288-288 | A run with a command that the replayer gives up on, or an attribute list too long for it, is never replayed to its end |
| `Trace.BindingsInStep` | tools/gltrace/gles.c:261-283 | The replayer's update of bindings, enabled arrays and array formats for a decoded record equals the recorder's for the call (lockstep) |
| `Trace.FrameByFrame` | tools/gltrace/retrace.c:2473-2473 | For every trace, up to a command beyond this model: replaying k frames and then the rest shows the same as replaying at once |
| `Trace.AnyNegative` | tools/gltrace/retrace.c:2473-2473 | Every negative frame count means all frames |
| `Trace.OpcodeIsCommand` | tools/gltrace/retrace.c:2477-2484 | No record's opcode can be taken for a thread prefix or the end of the trace |
| `Trace.GetOpcodeOfThread` | tools/gltrace/retrace.c:2475-2484 | The thread prefix that putCmd writes only when the thread changes is enough to know the thread of every record |
| `Records.DecodeEncode` | tools/gltrace/retrace.c:2486-3641 | Every record is decoded to itself (NULL string as empty, empty blob as NULL) and consumed to its last word; unimplemented commands and overlong attribute lists stop the replayer, and that depends on the record alone |
| `Records.GetFloatvIsConsumed` | tools/gltrace/iolib.c:378-391 | A glGetFloatv record is consumed to its end if and only if the parameter is neither NULL nor the marker value |
| `Records.GetPutArrays` | tools/gltrace/retrace.c:2807-2814 | The attribute blobs of glDrawElements are read back for exactly the enabled indices, in order |
| `Records.GetPutAttribs` | tools/gltrace/retrace.c:3543-3561 | An attribute list is read back, or stops the replayer exactly when it does not fit the fixed array |
| `Records.GetPutSources` | tools/gltrace/retrace.c:3128-3150 | The strings of glShaderSource, each with its length, are read back |
| `Records.GetPutChoose` | tools/gltrace/retrace.c:3437-3457 | An eglChooseConfig record is read back with its attribute list and as many configurations as the smaller of the two counts, or stops the replayer exactly when the list does not fit |
| `Opcodes.ShapesAgree` | tools/gltrace/retrace.c:2486-3641 | For every command with a fixed layout in the tables the replayer reads the very fields that the recorder writes, or reports the command as not implemented |
| `Calls.PackedPreservesFetch` | tools/gltrace/gles.c:193-205 | Repacked vertices read with stride 0 equal the originals read with their stride, for every vertex and byte |
| `DrawReplay.ReplayedFetch` | tools/gltrace/retrace.c:2807-2815 | By the format that the replayer keeps for an array, a replayed draw finds byte k of vertex j as the client's memory holds it at j strides and k, if j is below four for every six indices, and no byte otherwise |
| `DrawReplay.DrawIsFaithful` | tools/gltrace/gles.c:154-164 | A replayed draw from client arrays draws the client's own indices, and each fetches the client's bytes, if and only if every index is below four for every six, or no array delivers anything |
| `DrawReplay.IndicesAreReplayed` | tools/gltrace/gles.c:962-985 | Index number i of the replayed draw, read from the record by the width of its type, is number i in the client's memory |
| `DrawReplay.QuadsAreFaithful` | tools/gltrace/gles.c:154-164 | A draw of quads, each as two triangles, is replayed as it was |
| `Client.QuadsNeedTheirVertices` | tools/gltrace/gles.c:154-164 | The indices of q quads name just the vertices that getVertexCount counts for them |
| `Client.SizeOfIsWidth` | tools/gltrace/gles.c:66-83 | glSizeof knows the seven types of section 2.8 of OpenGL ES 2.0 and gives their widths |
| `Calls.RecordFits` | tools/gltrace/gles.c:962-985 | Whatever the recorder's state, the record of a call has the layout that this state prescribes |
| `Calls.ShaderTextSurvives` | tools/gltrace/gles.c:1711-1722 | A shader string comes out of the trace with the text GL saw, if and only if it is not a non-empty string with an explicit length of 0 |
| `Stream.GetPutNullableInt` | tools/gltrace/iolib.c:353-367 | A nullable int survives, NULL and the marker value included |
| `Stream.GetPutNullableFloat` | tools/gltrace/iolib.c:378-391 | A nullable float's value survives, but it is fully consumed if and only if it is neither NULL nor the marker |
| `Stream.GetPutString` | tools/gltrace/iolib.c:411-421 | A string survives, a NULL string as the empty one |
| `Stream.GetPutBlob` | tools/gltrace/iolib.c:423-436 | A blob survives, the empty one as NULL |
| `Stream.GetPutPtr` | tools/gltrace/iolib.c:402-409 | A pointer comes back as getPtr widens it, and is fully consumed |
| `Stream.UnpackPack` | tools/gltrace/iolib.c:423-436 | Padded bytes come back without the padding, and the next value starts behind it |
| `Wire.WidenIsExact` | tools/gltrace/iolib.c:402-409 | On a 32-bit trace a pointer survives if and only if its top bit is clear; its low half always does |
| `Wire.WidenInjective` | tools/gltrace/iolib.c:402-409 | Different pointers stay different |
| `Wire.LERoundTrip` | tools/gltrace/iolib.c:232-250 | Little-endian bytes give the number back |
| `Encoding.BytesOfEvent` | tools/gltrace/gles.c:261-283 | An event's bytes are prefix, opcode, body and times in this order |
| `Encoding.BytesOfRun` | tools/gltrace/iolib.c:160-182 | The bytes of a run are the encodings of its events one after the other, each for the state and the thread that the events before it leave, and then the bytes of what follows; a thread prefix comes exactly where the thread changes |
| `TraceWriter.Writer.constructor` | tools/gltrace/iolib.c:56-76 | A new trace holds the version header and nothing else |
| `TraceWriter.Writer.Enlarge` | tools/gltrace/iolib.c:126-154 | The window is only ever slid when it is full, so the file has no gaps |
| `TraceWriter.Writer.Copy` | tools/gltrace/iolib.c:232-268 | A value or blob of any size is appended byte for byte across windows |
| `TraceWriter.Writer.Pad` | tools/gltrace/iolib.c:286-289 | Zero bytes up to the next multiple of four |
| `TraceWriter.Writer.PutInt` | tools/gltrace/iolib.c:176-182 | Appends exactly the four bytes, or nothing in a nested call; the cursor stays aligned |
| `TraceWriter.Writer.PutNullable` | tools/gltrace/iolib.c:185-230 | Appends the value, doubled when it is the marker, or marker and one for NULL |
| `TraceWriter.Writer.PutLongLong` | tools/gltrace/iolib.c:232-250 | Appends eight bytes, across a window end too |
| `TraceWriter.Writer.PutPtr` | tools/gltrace/iolib.c:251-268 | Appends a pointer of the recorder's own size |
| `TraceWriter.Writer.PutString` | tools/gltrace/iolib.c:270-292 | Appends the string with its NUL and padding |
| `TraceWriter.Writer.PutBytes` | tools/gltrace/iolib.c:294-314 | Appends size, bytes and padding; NULL counts as empty, a negative size is written as it is |
| `TraceWriter.Writer.PutCmd` | tools/gltrace/iolib.c:160-174 | Appends thread prefix and opcode at depth one and nothing deeper |
| `TraceWriter.Writer.PutTime` | tools/gltrace/iolib.c:316-323 | Appends both times and leaves the call |
| `TraceWriter.Writer.EndCmd` | tools/gltrace/iolib.c:324-329 | Leaves the call |
| `TraceWriter.Writer.Fini` | tools/gltrace/iolib.c:110-118 | The truncated file is exactly the bytes appended |
| `TraceWriter.Writer.FileIsLogAndZeros` | tools/gltrace/iolib.c:126-154 | At any time the file is the bytes appended and zeros to the end of the window |
| `Recorder.Recorder.BindBuffer` | tools/gltrace/gles.c:261-283 | Appends its event and updates the binding of its target |
| `Recorder.Recorder.EnableVertexAttribArray` | tools/gltrace/gles.c:1005-1020 | Appends its event and enables one array |
| `Recorder.Recorder.DisableVertexAttribArray` | tools/gltrace/gles.c:927-942 | Appends its event and disables one array |
| `Recorder.Recorder.VertexAttribPointer` | tools/gltrace/gles.c:2225-2260 | Appends its event and stores the attribute |
| `Recorder.Recorder.Names` | tools/gltrace/gles.c:1107-1125 | glGen* and glDelete*: appends count and names |
| `Recorder.Recorder.ShaderSource` | tools/gltrace/gles.c:1704-1730 | Appends the shader, the count and every string by its length |
| `Recorder.Recorder.Create` | tools/gltrace/egl.c:348-375 | eglCreateContext and eglCreateWindowSurface: appends handles, attribute list, EGL_NONE and result |
| `Recorder.Recorder.ChooseConfig` | tools/gltrace/egl.c:150-180 | Appends the display, the attribute list, both counts, the configurations that the smaller count leaves and the result |
| `Recorder.Recorder.DrawElements` | tools/gltrace/gles.c:962-985 | Appends indices as pointer or bytes and the packed arrays as the bindings demand, for a negative count no bytes at all; unless a type is unknown and the process ends |
| `Recorder.Recorder.PutVertexAttrib` | tools/gltrace/gles.c:180-207 | One blob of packed vertices per enabled array, in order, empty ones for a negative count; fails if and only if an enabled array has an unknown type |
| `Recorder.Recorder.PackInto` | tools/gltrace/gles.c:193-205 | The copy loops fill exactly the packed vertices and stay within the largest array's size |
| `Recorder.Recorder.MaxSize` | tools/gltrace/gles.c:184-191 | The buffer is large enough for every enabled array |
| `Recorder.Recorder.Perform` | tools/gltrace/gles.c:261-283 | Any intercepted call appends its event and nothing else and updates the recorder's variables, unless it ends the process |
| `TraceReader.Reader.Open` | tools/gltrace/iolib.c:78-106 | A trace is accepted by its version word, whatever its other version numbers |
| `TraceReader.Reader.GetIntPtr` | tools/gltrace/iolib.c:353-367 | Reads what the nullable-int format says and moves the cursor behind it |
| `TraceReader.Reader.GetFloatPtr` | tools/gltrace/iolib.c:378-391 | Reads a nullable float the way the code does, without skipping the second word |
| `TraceReader.Reader.GetString` | tools/gltrace/iolib.c:411-421 | Finds the NUL by words and moves the cursor to the next multiple of four |
| `TraceReader.Reader.GetBytes` | tools/gltrace/iolib.c:423-436 | Reads a blob and skips its padding |
| `TraceReader.Reader.GetPtr` | tools/gltrace/iolib.c:402-409 | Reads a pointer of the trace's size, sign-extended |
| `TraceReader.Reader.GetLongLong` | tools/gltrace/iolib.c:393-400 | Reads eight bytes |
| `Replayer.Replayer.Switch` | tools/gltrace/retrace.c:2486-3641 | The switch reads what Records.Decode says, or gives up; three commands are beyond this model |
| `Replayer.Replayer.Apply` | tools/gltrace/retrace.c:2513-2524 | The replayer's own variables after a command |
| `Replayer.Replayer.GetVertexArrays` | tools/gltrace/retrace.c:2807-2814 | The loop reads one blob per enabled array |
| `Replayer.Replayer.GetAttribList` | tools/gltrace/retrace.c:3543-3561 | The loop reads pairs up to EGL_NONE or runs out of room |
| `Replayer.Replayer.Turn` | tools/gltrace/retrace.c:2473-3656 | One turn of the loop, with thread prefix and times |
| `Replayer.Replayer.Run` | tools/gltrace/retrace.c:2468-3657 | The loop shows what the function Trace.Process says, for any trace, up to a command beyond this model |
| `Threads.StepKeepsInv` | tools/gltrace/iolib.c:156-174 | Every step of every thread keeps: one lock holder, depth and re-entrance in step, the log is whole segments and the open one |
| `Threads.Interleavings` | tools/gltrace/iolib.c:156-174 | In every interleaving the trace is what the threads' own steps put at depth one into the outermost calls that they have left, each in one piece and behind its opcode, and so far into the one that is open; only the lock holder has a call open, and re-entrance is the lock depth |
| `Threads.PutIsPut` | tools/gltrace/iolib.c:176-182 | Putting appends the bytes of the words, or nothing in a nested call |
| `Threads.NestedAddsNothing` | tools/gltrace/iolib.c:160-174 | A nested call adds no words and does not change the current thread |
| `Threads.EnterIsPutCmd` | tools/gltrace/iolib.c:160-174 | Entering appends what the writer's putCmd appends |
| `Threads.ReplayInterleaving` | tools/gltrace/retrace.c:2477-2484 | If what the threads' steps put were the records of a run, replaying shows each event once, told by all its fields, with the thread that issued it |
| `EventQueue.EventQ.Push` | modules/graphics/src/dalvik/native/EventLoop.c:35-49 | The event becomes the newest of the list; prev and next stay inverse and size the length |
| `EventQueue.EventQ.Pop` | modules/graphics/src/dalvik/native/EventLoop.c:51-65 | Takes the oldest event, or nothing from an empty queue |
| `EventQueue.EventQ.Process` | modules/graphics/src/dalvik/native/activity.c:165-179 | The event's callback is made and the event is freed, and never was before |
| `EventQueue.EventQ.ProcessUntilWait` | modules/graphics/src/dalvik/native/EventLoop.c:75-94 | All queued events are processed, oldest first, or none once the queue is stopped |
| `EventQueue.EventQ.FreedUnreachable` | modules/graphics/src/dalvik/native/EventLoop.c:51-65 | No freed event is reachable from head, tail, prev or next |
| `EventQueue.EventQ.Stop` | modules/graphics/src/dalvik/native/EventLoop.c:100-105 | Only running changes |
| `EventLoop.StepKeepsInv` | modules/graphics/src/dalvik/native/EventLoop.c:67-98 | Every step keeps mutual exclusion, FIFO order, and no lost wake-up |
| `EventLoop.Interleavings` | modules/graphics/src/dalvik/native/EventLoop.c:67-98 | All of this holds in every reachable state |
| `EventLoop.ProcessedInOrder` | modules/graphics/src/dalvik/native/EventLoop.c:67-98 | What has been processed are the first events of those queued at the start and then pushed, in the order of the pushes' updates, one for each step that processes; all of them when the consumer waits unsignalled with the mutex free |
| `EventLoop.RunIsAsStepped` | modules/graphics/src/dalvik/native/EventLoop.c:35-105 | The queue is running until the first update of a stop, and has been given the events of the pushes' updates, in their order |
| `EventLoop.StopIsHeeded` | modules/graphics/src/dalvik/native/EventLoop.c:67-105 | After any run in which a stop has made its update the lock holder and the consumer need no more than six steps to end the consumer; without such an update it never ends |
| `EventLoop.StopEnds` | modules/graphics/src/dalvik/native/EventLoop.c:67-98 | So from every state from which a stop holds the mutex; the event in hand is still processed, and no other |
| `EventLoop.NeverStuck` | modules/graphics/src/dalvik/native/EventLoop.c:67-98 | With an event queued, a stop pending or the lock held, a step is enabled that needs no new call and no spurious wake-up |
| `EventLoop.OldestIsProcessed` | modules/graphics/src/dalvik/native/EventLoop.c:67-98 | From every such state the lock holder and the consumer alone process the oldest event within six steps, unless a stop ends the loop |
| `EscapeParser.Parser.InsertString` | apps/experiments/WebTerminal/src/webterminal/WebTerminal.java:1167-1341 | The parser on a chunk makes the calls that the state machine says, wrap breaks included, and keeps the column; text that nothing interrupts is passed on in pieces that each end in the column to which they run; all accesses to the growing parameter array are in bounds |
| `EscapeParser.Parser.PushParameter` | apps/experiments/WebTerminal/src/webterminal/WebTerminal.java:1207-1217 | The array grows when it is full, and keeps the parameters |
| `ParserChunks.ChunkIndependence` | apps/experiments/WebTerminal/src/webterminal/WebTerminal.java:1167-1341 | Cutting the input in two gives the same actions, breaks and state, if and only if the cut does not part a CR from an LF that would have been taken together, and does not come where the column in hand differs from the cursor's before text that is then laid out differently |
| `ParserChunks.ColumnMatters` | apps/experiments/WebTerminal/src/webterminal/WebTerminal.java:1319-1333 | Text fed from two columns comes to the same, if and only if its first stretch is laid out alike from both |
| `ParserChunks.LineFeedLosesColumn` | apps/experiments/WebTerminal/src/webterminal/WebTerminal.java:1273-1291 | After a line feed with the column uncached a cut changes the layout |
| `ParserChunks.TextSurvives` | apps/experiments/WebTerminal/src/webterminal/WebTerminal.java:1319-1336 | No character of a text is lost or doubled; it is broken if and only if wrapping is on and it does not fit the line, and otherwise comes out as one piece |
| `ParserChunks.OrdinaryFits` | apps/experiments/WebTerminal/src/webterminal/WebTerminal.java:1820-1834 | Ordinary characters fit, if and only if there are columns for all of them |
| `ParserChunks.LineFits` | apps/experiments/WebTerminal/src/webterminal/WebTerminal.java:1820-1834 | Text on one line fits, if and only if there are columns for all of it but the zero-width spaces |
| `ParserChunks.LinesAreFilled` | apps/experiments/WebTerminal/src/webterminal/WebTerminal.java:1319-1333 | Text of ordinary width fills line after line to the wrap width, with a break before each character beyond it |
| `ControlPrinter.PrintThenParse` | apps/experiments/WebTerminal/src/webterminal/WebTerminal.java:1200-1227 | A control sequence printed by section 5.4 of ECMA-48 is parsed to its parameters, if and only if every number is below 2^31 |
| `ControlPrinter.ReadBackIsExact` | apps/experiments/WebTerminal/src/webterminal/WebTerminal.java:1202-1205 | A number survives int arithmetic if and only if it is below 2^31 |
| `ControlPrinter.OscThenParse` | apps/experiments/WebTerminal/src/webterminal/WebTerminal.java:1229-1256 | An operating system control reaches its handler with its number and its whole text, if and only if the number is below 2^31 and the text has no BEL and no NUL |
| `ControlPrinter.EscapesAreCalls` | apps/experiments/WebTerminal/src/webterminal/WebTerminal.java:1188-1201 | ESC 7, ESC 8 and ESC M save the cursor, restore it and insert a line; every other escape of two characters is ignored |
| `ControlPrinter.ControlsAreCalls` | apps/experiments/WebTerminal/src/webterminal/WebTerminal.java:1255-1318 | Each control makes its own call; CR LF is one call unless the cursor is at the bottom of the region; a tab goes to the next multiple of eight |
| `Sgr.LookUpPush` | apps/experiments/WebTerminal/src/webterminal/WebTerminal.java:719-731 | Pushing a style sets or resets its own property and leaves the other three |
| `Sgr.SelectIsRender` | apps/experiments/WebTerminal/src/webterminal/WebTerminal.java:569-620 | One SGR code does to the list of style strings what its case does to the four property values |
| `Sgr.SelectAllIsRenderAll` | apps/experiments/WebTerminal/src/webterminal/WebTerminal.java:569-620 | So does any list of codes: styles that were replaced leave no trace in the list |
| `GraphicRendition.LooksTheSame` | apps/experiments/WebTerminal/src/webterminal/WebTerminal.java:569-620 | The styles for a list of codes look like the rendition of section 8.3.117 of ECMA-48, if and only if no aspect is in force that has no style, and the last codes that name a colour or the image name what the selected colours and the image make |
| `GraphicRendition.OrdinaryIsFaithful` | apps/experiments/WebTerminal/src/webterminal/WebTerminal.java:569-620 | Without codes for the image, all codes that are implemented come out right |
| `GraphicRendition.ImageLosesColours` | apps/experiments/WebTerminal/src/webterminal/WebTerminal.java:590-597 | A colour is lost by negative and then positive image, and is on the wrong side when it is selected under the negative image |
| `Sgr.SelectAllProperties` | apps/experiments/WebTerminal/src/webterminal/WebTerminal.java:719-731 | Only well-formed properties get into the list |
| `StyleAttribute.ReadBackIffProperties` | apps/experiments/WebTerminal/src/webterminal/WebTerminal.java:773-802 | The style attribute written for a list of styles is taken apart into the same list, if and only if each is a single trimmed property |
| `Dom.FlatIsWhole` | apps/experiments/WebTerminal/src/webterminal/WebTerminal.java:828-853 | Reading from the cursor to both sides is reading the document |
| `Dom.PopPreserves` | apps/experiments/WebTerminal/src/webterminal/WebTerminal.java:828-853 | popStyle changes no character, style or class before or after the cursor |
| `Dom.PopNPreserves` | apps/experiments/WebTerminal/src/webterminal/WebTerminal.java:800-803 | Nor do any number of them, and the cursor is then out of that many elements |
| `Dom.PopKeepsAll` | apps/experiments/WebTerminal/src/webterminal/WebTerminal.java:836-844 | Everything around every character survives popStyle, tag and std included, if and only if the split element is a span without std or no character follows in it |
| `StyledOutput.AdjustPreserves` | apps/experiments/WebTerminal/src/webterminal/WebTerminal.java:741-821 | adjustStyle changes no character, style or class of the document |
| `StyledOutput.AdjustExactly` | apps/experiments/WebTerminal/src/webterminal/WebTerminal.java:741-821 | Where every style attribute around the cursor holds a property: the styles around the cursor become the current styles, whatever these are, if and only if the styled elements stand directly around the cursor beforehand |
| `StyledOutput.AdjustReaches` | apps/experiments/WebTerminal/src/webterminal/WebTerminal.java:741-821 | For one list of current styles: they are reached if and only if the elements left alone hold no more properties than were matched; styled elements that stand directly around the cursor still do so afterwards |
| `StyledOutput.LeavesAsFewAsPossible` | apps/experiments/WebTerminal/src/webterminal/WebTerminal.java:757-821 | The outermost styled elements that together hold a prefix of the current styles stay, as many as there can be, and one span is opened, if and only if they do not hold all |
| `StyledOutput.UnstyledInsideStyledFails` | apps/experiments/WebTerminal/src/webterminal/WebTerminal.java:800-803 | An unstyled element inside a styled one is popped in place of it, and the style stays |
| `StyledTerminal.Terminal.PushSimpleStyle` | apps/experiments/WebTerminal/src/webterminal/WebTerminal.java:719-731 | The loop removes every style of the name and adds the new one at the end |
| `StyledTerminal.Terminal.SelectGraphicRendition` | apps/experiments/WebTerminal/src/webterminal/WebTerminal.java:569-620 | The codes are applied in order and an adjustment is due |
| `StyledTerminal.Terminal.PopStyle` | apps/experiments/WebTerminal/src/webterminal/WebTerminal.java:828-853 | The element is split at the cursor, the right half only if something follows |
| `StyledTerminal.Terminal.CompareOne` | apps/experiments/WebTerminal/src/webterminal/WebTerminal.java:773-797 | The inner loop counts the properties if all of them are the next current styles |
| `StyledTerminal.Terminal.Compare` | apps/experiments/WebTerminal/src/webterminal/WebTerminal.java:757-800 | The outer loop counts the wanted styles that the elements match from the outside in, and the elements left over |
| `StyledTerminal.Terminal.AdjustStyle` | apps/experiments/WebTerminal/src/webterminal/WebTerminal.java:741-821 | Leaves the elements that do not match and opens one span for the rest |
| `StyledTerminal.Terminal.InsertSimpleOutput` | apps/experiments/WebTerminal/src/webterminal/WebTerminal.java:1343-1375 | Empty text changes nothing; other text is inserted after any due adjustment and, in replace mode, after deleting what stands in its columns; error text gets a span of its own |
| `StyledTerminal.Terminal.InsertRawOutput` | apps/experiments/WebTerminal/src/webterminal/WebTerminal.java:1377-1387 | Text joins a text node before the cursor or becomes a new one |
| `StyledTerminal.Terminal.InsertWrapBreak` | apps/experiments/WebTerminal/src/webterminal/WebTerminal.java:1466-1476 | The wrap string goes in with the styles that are around the cursor, adjusted or not |
| `StyledTerminal.Terminal.Do` | apps/experiments/WebTerminal/src/webterminal/WebTerminal.java:1343-1388 | Each call of the parser changes the terminal as the specification of its step says |
| `TerminalRun.StepShows` | apps/experiments/WebTerminal/src/webterminal/WebTerminal.java:1343-1375 | A step adds exactly the printed characters, in the styles in force, leaves an end of what stood after the cursor, and keeps the invariant, unless text comes in insert mode with wrapping on |
| `TerminalRun.RunShows` | apps/experiments/WebTerminal/src/webterminal/WebTerminal.java:1343-1388 | Any run of SGR, text, wrap breaks and deletions in which no text comes in insert mode with wrapping on: every new character has exactly the styles in force when it came, old ones are as before, and after the cursor an end of the old characters is left, namely, when no block is there, all but the replaced and deleted ones |
| `TerminalRun.RunRenders` | apps/experiments/WebTerminal/src/webterminal/WebTerminal.java:569-620 | Every new character has the property values that all the codes before it select, every wrap break those of the text before it |
| `Erase.ErasedIsScan` | apps/experiments/WebTerminal/src/webterminal/WebTerminal.java:962-1064 | Deleting along siblings and into them, with the rules for line break elements, links, images, objects and emptied blocks, removes exactly the characters that a scan of the text and the element marks finds; what a further deletion finds there is the rest of the marks, when no block is among them |
| `Erase.ErasedFromIsScan` | apps/experiments/WebTerminal/src/webterminal/WebTerminal.java:962-1064 | Deleting to the right of the cursor removes exactly the characters within the columns, up to the end of the line, across element boundaries, and nothing before the cursor changes |
| `Erase.ErasedFromHasNoBlock` | apps/experiments/WebTerminal/src/webterminal/WebTerminal.java:962-1064 | A deletion leaves no block after the cursor where there was none, so that deletion after deletion is exact |
| `Erase.OrdinaryLine` | apps/experiments/WebTerminal/src/webterminal/WebTerminal.java:988-994 | On a line of ordinary characters as many go as there are columns, or all |
| `Erase.ObjectsCountOne` | apps/experiments/WebTerminal/src/webterminal/WebTerminal.java:1016-1024 | A link, image or object goes as one column, however much text it holds |
| `Erase.ProseAheadMarks` | apps/experiments/WebTerminal/src/webterminal/WebTerminal.java:962-1064 | Among text and styles a deletion meets just the characters |
| `StyledTerminal.Terminal.EraseCharactersRight` | apps/experiments/WebTerminal/src/webterminal/WebTerminal.java:962-1064 | The traversal deletes what the specification says; a negative count is the rest of the line |
| `StyledTerminal.EraseText` | apps/experiments/WebTerminal/src/webterminal/WebTerminal.java:979-1010 | The character loop finds how many characters go, with tabs and zero-width spaces |
| `TerminalRun.Overwrites` | apps/experiments/WebTerminal/src/webterminal/WebTerminal.java:1353-1358 | In replace mode text of n ordinary columns takes the place of n characters, or of the rest of the line |
| `TerminalRun.NothingRemains` | apps/experiments/WebTerminal/src/webterminal/WebTerminal.java:1353-1358 | At the end of the document nothing is ever replaced |
| `HostOutput.HostOutputIsPainted` | apps/experiments/WebTerminal/src/webterminal/WebTerminal.java:1167-1388 | Text with SGR sequences among it, cut into any chunks and passed on in any pieces: every character is shown once, in order, with the values selected when it was sent, and nothing else but wrap breaks; just the text is shown, if and only if wrapping is off or the text fits the line |
| `HostDisplay.Display` | apps/experiments/WebTerminal/src/webterminal/WebTerminal.java:1167-1388 | So it is when the parser's method is called for each chunk and the terminal's methods for each call that it makes; and text of n ordinary characters that fit the line takes the place of the next n of a line of ordinary characters, or of all that are left of it, and of nothing else |
| `HostDisplay.HostOutputReplaces` | apps/experiments/WebTerminal/src/webterminal/WebTerminal.java:1353-1358 | The same for any pieces of text that end in the column to which they run |
| `HostDisplay.ColumnsAgree` | apps/experiments/WebTerminal/src/webterminal/WebTerminal.java:979-1010 | A deletion counts columns as the parser does, tabs included |
| `HostOutput.BreaksIffTooLong` | apps/experiments/WebTerminal/src/webterminal/WebTerminal.java:1319-1333 | A break comes, if and only if wrapping is on and the text does not fit the line |
| `HostOutput.PiecesDoNotMatter` | apps/experiments/WebTerminal/src/webterminal/WebTerminal.java:1343-1375 | Text inserted in several pieces shows what it shows in one |
| `HostOutput.AnyChunks` | apps/experiments/WebTerminal/src/webterminal/WebTerminal.java:1167-1341 | The actions, wrap breaks included, do not depend on the chunks |
| `HostOutput.LooksAsSpecified` | apps/experiments/WebTerminal/src/webterminal/WebTerminal.java:569-620 | The painted text looks as section 8.3.117 of ECMA-48 has it, if and only if the codes before every text are faithful to it |
| `NodeWriter.NodeWriter.WriteData` | apps/experiments/WebTerminal/src/webterminal/NodeWriter.java:74-112 | The index loop appends the pieces of the text: entities, and counts for runs |
| `NodeWriter.WriteDataInvertible` | apps/experiments/WebTerminal/src/webterminal/NodeWriter.java:74-112 | A decoder recovers the text if and only if it has no backslash, in text and attributes, for any minimum |
| `NodeWriter.BackslashIsAmbiguous` | apps/experiments/WebTerminal/src/webterminal/NodeWriter.java:100-108 | With a backslash two different texts are written the same |
| `NodeWriter.ZeroAbbreviatesAll` | apps/experiments/WebTerminal/src/webterminal/NodeWriter.java:69-72 | A minimum of 0 does not switch abbreviations off: each character gets one |
| `NodeWriter.RunIsWritten` | apps/experiments/WebTerminal/src/webterminal/NodeWriter.java:78-108 | A run of k equal characters is written once with its count, if k is at least the minimum, and else k times |
| `NodeWriter.OutputIsWellFormed` | apps/experiments/WebTerminal/src/webterminal/NodeWriter.java:86-96 | The output has no control characters and no bare markup, every '&' in it starts an entity that can be read, and it is ASCII if so asked |
| `NodeWriter.CleanIsPlain` | apps/experiments/WebTerminal/src/webterminal/NodeWriter.java:86-96 | A character is written as it is, if and only if it is clean; markup is written by name, the rest by number |
| `NodeWriter.AttributesKeepLess` | apps/experiments/WebTerminal/src/webterminal/NodeWriter.java:88-91 | The value of an attribute is written with a '<', which XML does not allow there, if and only if it has one |
| `Mesh.FaceInRange` | apps/toys/FX8-3DFeatures/src/fx83dfeatures/PNTMeshViewer.java:209-264 | The point, normal and texture numbers of every face are in range, and the three normal numbers of a triangle are the triangle's own |
| `Mesh.DirectedEdgeOnce` | apps/toys/FX8-3DFeatures/src/fx83dfeatures/PNTMeshViewer.java:209-264 | No directed edge occurs twice in the face array |
| `Mesh.ReverseEdgeOnce` | apps/toys/FX8-3DFeatures/src/fx83dfeatures/PNTMeshViewer.java:209-264 | An edge occurs in the other direction too, if and only if it is not on the border of the grid |
| `Mesh.TriangleInGrid` | apps/toys/FX8-3DFeatures/src/fx83dfeatures/PNTMeshViewer.java:228-229 | Every slot of the face array belongs to a triangle of the grid |
| `Mesh.GridTriangle` | apps/toys/FX8-3DFeatures/src/fx83dfeatures/PNTMeshViewer.java:228-229 | Every triangle of the grid has its slot |
| `MeshBuilder.CreatePoints` | apps/toys/FX8-3DFeatures/src/fx83dfeatures/PNTMeshViewer.java:167-186 | Every slot of both coordinate arrays holds the value of its grid point |
| `MeshBuilder.CreateFaces` | apps/toys/FX8-3DFeatures/src/fx83dfeatures/PNTMeshViewer.java:188-265 | Every slot of the face array holds its corner or normal number, every normal is that of its triangle's three points |
| `MeshBuilder.BuildTriangleMesh` | apps/toys/FX8-3DFeatures/src/fx83dfeatures/PNTMeshViewer.java:150-289 | The mesh shows the surface over the grid |
| `MeshBuilder.PointsInNumbers` | apps/toys/FX8-3DFeatures/src/fx83dfeatures/PNTMeshViewer.java:167-186 | The slots of the point in column x and row y hold its x, y and z and its texture coordinates |
| `MeshBuilder.FacesInNumbers` | apps/toys/FX8-3DFeatures/src/fx83dfeatures/PNTMeshViewer.java:209-264 | The two triangles of a cell have the four points of the cell in their order, and their normals' numbers |
| `MeshBuilder.NormalsInNumbers` | apps/toys/FX8-3DFeatures/src/fx83dfeatures/PNTMeshViewer.java:118-144 | Every normal is that of the three points in the arrays which the face array gives the triangle |
| `MeshBuilder.RecomputeNormals` | apps/toys/FX8-3DFeatures/src/fx83dfeatures/PNTMeshViewer.java:118-144 | The loop over the faces finds the same normals, and its assertion always holds |
| `MeshBuilder.ComputeMesh` | apps/toys/FX8-3DFeatures/src/fx83dfeatures/PNTMeshViewer.java:82-148 | On a mesh of these divisions the result is the mesh that building anew would give, whatever it showed before |
| `FileCursor.LoopPosition` | apps/toys/FXSlideShow/src/fxslideshow/Files.java:140-178 | In loop mode n moves forward and m back, in any order, end at start + n - m modulo the size |
| `FileCursor.ThereAndBack` | apps/toys/FXSlideShow/src/fxslideshow/Files.java:140-178 | A move is taken back by the opposite one, if and only if it was possible (or there is one file) |
| `FileCursor.Files.Next` | apps/toys/FXSlideShow/src/fxslideshow/Files.java:140-152 | Moves on or says that it cannot, and keeps both neighbours up to date |
| `FileCursor.Files.Previous` | apps/toys/FXSlideShow/src/fxslideshow/Files.java:158-171 | Moves back likewise |
| `FileCursor.Files.SetLoop` | apps/toys/FXSlideShow/src/fxslideshow/Files.java:184-188 | Sets the mode and the neighbours |
| `SlideShow.SlotsAgree` | apps/toys/FXSlideShow/src/fxslideshow/FXSlideShow.java:419-479 | After any moves each filled slot is for the file it should be for; with previous images kept, all slots that have a file are filled from the first real move on |
| `SlideShow.ShiftAgrees` | apps/toys/FXSlideShow/src/fxslideshow/FXSlideShow.java:419-479 | So after every single move from any agreeing slots |
| `SlideShow.Show.constructor` | apps/toys/FXSlideShow/src/fxslideshow/FXSlideShow.java:647-655 | The first slots agree with the cursor |
| `SlideShow.Show.NextImage` | apps/toys/FXSlideShow/src/fxslideshow/FXSlideShow.java:419-479 | The slots are shifted as specified; what was loaded ahead is used, no slot ever holds a cancelled task, and the current image is on the screen or the busy indicator is |
| `SlideShow.Show.Succeeded` | apps/toys/FXSlideShow/src/fxslideshow/FXSlideShow.java:126-142 | A finished task is shown if it is the current one |
| `EnumStrings.EnumText.Fallback` | tools/gltrace/enums.c:547-554 | The text is put inside the buffer and the pointer behind it |
| `EnumStrings.TextLength` | tools/gltrace/enums.c:552-552 | A 32-bit value takes at most 11 bytes, so snprintf never truncates |
| `EnumStrings.Lifetime` | tools/gltrace/enums.c:547-554 | A returned text is unchanged by any 90 further calls |
| `EnumStrings.BoundIsExact` | tools/gltrace/enums.c:547-554 | 91 further calls can overwrite it |

## Left out

- GL, EGL and JNI calls, symbol interposition, failures of open, mmap, pwrite and truncate, printing and PNG output of the replayer; its mode that only prints, in which it keeps no array formats.
- Commands that only one side implements are recorded but end the replay (Trace.ReplayStops); those that the recorder refuses have no record.
- Trace.FrameByFrame: the model's replay ends at glGetActiveUniform and glGetAttachedShaders, whose fields depend on each other and, for the second, on whether calls are executed, at eglGetConfigAttrib, of whose reads C leaves the order open, and at the commands that exist on macOS only; the code goes on.
- Replayer.Replayer.Run: the same commands end it.
- RoundTrip.RecordAndReplay: a run has none of these commands, and no glGetFloatv with NULL or the marker, after which the replayer is one word behind (Records.GetFloatvIsConsumed).
- Recorder.Recorder.DrawElements: the product of a negative count and the index size is at least -2^31, below which the C code overflows; vertex attribute indices of 128 and more, for which it writes outside its array, are not modelled either.
- TraceReader.Reader.Open: pointer sizes other than 4 and 8 and files without a whole header are refused; the C code opens them and then reads nonsense or beyond the mapping.
- Traces whose length is not a multiple of four, or that end within a record: the C code then reads beyond the mapping.
- Trace.BindingsInStep: is about one caller whose calls do not nest; a nested glBindBuffer changes the recorder's state without a record, and the state changes after the lock is released, so the two sides can differ across threads.
- Threads.ReplayInterleaving: takes what the steps put to be the records of a run, since which state a call sees is not decided by the lock.
- TraceWriter.Writer.Fini: the window is a value of any positive multiple of four, not the page size; unmapping is not modelled.
- EventLoop.ProcessedInOrder: a prefix only, because the loop ends as soon as it sees that the queue has been stopped, with events in it or not; pushes after the mutex is destroyed and callbacks that push are not modelled.
- EscapeParser.Parser.InsertString: cursor motion, scrolling, tabs and the other control sequences are calls to the rest of the terminal; of what they do only the cursor's place comes back, as a function of the actions so far in which text counts alike in one piece or several. Characters above U+FFFF are one character and one column, where Java has two of each.
- TerminalRun.RunShows: cursor moves and the alternate screen are not modelled. When text comes in insert mode with wrapping on, the code trims the line and moves the cursor; what is trimmed is then a parameter, and the theorem is about runs without such text. With block elements after the cursor it says only that an end of what stood there is left, since a block that a deletion empties can stop the next one.
- StyledTerminal.Terminal.EraseCharactersRight: erasing with blanks instead of deleting is left out.
- The document is a zipper held in a field and not linked nodes, so identity of nodes and aliasing are not captured and traversals over node links are recursion over values; attributes other than class, style and std are ignored, and the output position is the input line.
- NodeWriter.NodeWriter.WriteData: characters are Unicode scalar values; for one above U+FFFF, which is two characters in Java, the code writes two entities, one for each surrogate, and the model one. The rest of writeNode, which prints object identities, is left out.
- NodeWriter.WriteDataInvertible: is likewise about texts without surrogates.
- MeshBuilder.BuildTriangleMesh: coordinates and normals are arbitrary functions, so rounding and the shape of the surface are not covered; indices do not overflow.
- SlideShow.Show.NextImage: transitions, scaling and the broken-image icon are left out; the reload key is too, since it resubmits a task that may have been cancelled.
- EnumStrings.EnumText.Fallback: the names of known values are constants and left out.
- Strings of the replayer's print buffer, maps of handles and frame rates: easy or inexact for long floats.
- WebOutputStream, WTDebug, the pty code and the JavaFX scenes.
