# A verified model of the IoT intrusion detector

This project models a host-based intrusion detector for small Linux devices and proves what its parts promise
each other. Once per window the detector turns kernel counters and `/proc/diskstats` into a feature vector,
scales it, runs a three-layer perceptron, debounces the verdict, and publishes JSON events over its own MQTT 3.1.1
client. A second program replays recorded feature vectors from CSV files, and a Python program serves as the
reference for it.

`dafny verify dfyconfig.toml` checks everything. Each class with changing fields is a Dafny class, each loop a loop.
A method is proved equal to a function of the old state, and the lemmas say what that function means; the `...Meaning`
modules say it in terms of the inputs alone.

| part | files |
|---|---|
| MQTT client | `MqttWire` (encoder), `MqttDecoder` (reader written from the standard), `Network` (sockets), `MqttSession` (the session machine), `MqttPublisher` (the class), `MqttLengthProofs`, `MqttFrameProofs`, `MqttStreamProofs`, `MqttCutFrames`, `MqttCutProofs`, `MqttSessionProofs`, `MqttRunProofs`, `MqttAtMostOnce`, `MqttReceivers` |
| classifier | `Vectors`, `Mlp`, `Softmax`, `Model`, `ModelFile`, `ModelFileValues`, `ModelLoader`, `ModelFileProofs` |
| debouncer | `Debouncer`, `DebouncerProofs` |
| collectors | `Sums`, `Counters`, `PerfCollector`, `ProcCollector`, `DiskMeaning`, `ProcProofs`, `Routing`, `Aggregator` |
| service | `Detection`, `DetectionProofs`, `DetectionMeaning`, `HidsService`, `ServiceProofs`, `DetectionEvent`, `JsonReader`, `JsonProofs`, `MessageMeaning` |
| replay | `Csv`, `Tally`, `Replay`, `Oracle`, `ReplayMeaning`, `ReplayProofs`, `Metrics`, `MetricsProofs`, `MetricsMeaning` |

## How the outside world appears

* **Sockets.** Every answer of `getaddrinfo`, `socket`/`connect`, `send` and `recv` is an element of a finite script fixed
  in advance, so "for every script" means every network and broker behaviour of a run that ends, with any finite
  number of EINTR results; when a script runs out the call fails. The record keeps, for every socket ever opened, the
  bytes it accepted and delivered, whether it is open, and how often it was closed. A descriptor is an index into that
  record and is never reused.
* **Floats** are reals. The exponential is any function that is 1 at 0, positive, strictly increasing, and turns sums
  into products. A float stored in `model.bin` is its four bytes, turned into a real by a parameter.
* **Sizes.** `size_t` products are taken modulo 2^32 or 2^64, as a parameter. A float vector is at most
  `size_t`'s range over 8, less one, elements long, which is the C++ library's limit. 64-bit counters and their sums wrap at 2^64.
* **Texts of numbers**, timestamps and number parsing are parameters. `stof` and `float32`, and `stoi` and `int`, are taken
  to read a cell alike.
* **Time** is a value of each reading; a run of the service is a finite sequence of readings.

## Where the code differs from its comments, or from its reference

* `src/proc_collector.cpp:54-56` says that a malformed line is ignored. It adds its fields up to the first bad one;
  `ProcProofs.MalformedLineIgnoredWhen` gives the exact condition under which that comes to nothing.
* `src/proc_collector.cpp:94` calls `util` a fraction in [0..1]. It is bounded by the number of whole disks, and reaches it,
  so it is a fraction in every window exactly when there is at most one whole disk (`ProcProofs.UtilIsFractionWhen`).
* `src/perf_collector.cpp:80-87`: a failed read of one descriptor spoils two windows. In its own it can look like a counter
  reset, and in the next the descriptor's whole count comes back as if it were new; either can report more than the true
  increase (`PerfCollector.DeltaExactWhen`, `PerfCollector.FailedReadOverCounts`).
* `src/mqtt_publisher.cpp:102-105` sets the password flag independently of the user name, which section 3.1.2.9 of
  MQTT 3.1.1 forbids without a user name (`MqttFrameProofs.ConnectMeetsUserNameRule`).
* `src/mqtt_publisher.cpp:126` does not look at the flag byte of a CONNACK, of which section 3.2.2.1 of MQTT 3.1.1 reserves seven bits
  as 0; the reader here takes any flag byte too.
* The size check of `include/hids/model.hpp:42-53` is exact for a header exactly when none of its products wraps and none of its
  arrays is longer than the library allows; with a 32-bit `size_t` there are headers that wrap (`ModelFileProofs.SizeCheckExactWhen`,
  `ModelFileProofs.WrapExample`).
* The DISCONNECT bytes that `src/mqtt_publisher.cpp:20-21` sends after a send that stopped short can complete the packet that was
  cut. They do exactly when they are as many as it lacks and none of its last size bytes is missing, and the completed packet is
  the very one that was cut exactly when it lacked their own bytes: a publish call can return false and its message still be
  delivered, for the messages whose frame ends in E0 or in E0 00 (`MqttCutProofs.CutPublishWhen`, `MqttReceivers.FalseButReadWhen`).
* The replay tool and its oracle differ on empty or unreadable files, on a label written as -1, and with the scaler on
  when a feature's range is empty and the value is above it (`ReplayProofs.EmptyFileDiffers`, `SameRowWhen`, `ScalersAgree`,
  `DegenerateFileDiffers`).

## Model

| member | source | states |
|---|---|---|
| `MqttWire.PutRemainingLength` | src/mqtt_publisher.cpp:28-35 | Terminates for every length and appends exactly the base-128 code of it, whose meaning is proved in MqttLengthProofs. |
| `MqttWire.PutString` | src/mqtt_publisher.cpp:37-41 | Appends the two-byte size and the bytes, and keeps what the buffer held. |
| `MqttWire.BuildConnect` | src/mqtt_publisher.cpp:97-119 | The bytes assembled from separate header and payload buffers are the one frame for which the round trip is proved. |
| `MqttWire.BuildPublish` | src/mqtt_publisher.cpp:142-150 | The same for a PUBLISH at QoS 0, with the retain bit. |
| `MqttLengthProofs.LengthRoundTrip` | src/mqtt_publisher.cpp:28-35 | Followed by any bytes, the code is read back as the length and the rest below 2^28, and rejected from 2^28 on. |
| `MqttLengthProofs.LengthPrefixFree` | src/mqtt_publisher.cpp:28-35 | Two codes followed by anything are equal only if lengths and continuations are: no code is a prefix of another. |
| `MqttLengthProofs.LengthFitsFourBytes` | src/mqtt_publisher.cpp:28-35 | A code has at most four bytes if and only if the length is below 2^28. |
| `MqttLengthProofs.LengthCodeIsShortest` | src/mqtt_publisher.cpp:28-35 | Any byte string that codes a length is at least as long as the writer's code for it, and equal to it if as short. |
| `MqttLengthProofs.LengthCodeHasItsValue` | src/mqtt_publisher.cpp:28-35 | The writer's code is itself a well-formed code for its length. |
| `MqttFrameProofs.FieldRoundTrip` | src/mqtt_publisher.cpp:37-41 | A string field is read back, whatever follows, if and only if it has fewer than 65536 bytes. |
| `MqttFrameProofs.ConnectRoundTrip` | src/mqtt_publisher.cpp:97-119 | A reader that looks at the flags and then at the fields they announce recovers client id, user name, password and keep-alive, whatever follows, if and only if all are in range. |
| `MqttFrameProofs.ConnectMeetsUserNameRule` | src/mqtt_publisher.cpp:102-105 | The flags meet section 3.1.2.9 exactly when the user name is non-empty or the password is empty. |
| `MqttFrameProofs.PublishRoundTrip` | src/mqtt_publisher.cpp:142-150 | Topic, payload and retain bit are read back, whatever follows, if and only if topic and body fit. |
| `MqttFrameProofs.CutPacketIncomplete` | src/mqtt_publisher.cpp:28-35 | Every proper prefix of a readable packet is reported as incomplete: packets delimit themselves. |
| `MqttStreamProofs.SessionRead` | src/mqtt_publisher.cpp:97-156 | A CONNECT and any number of PUBLISH frames are read as exactly those packets, then the reader goes on with what follows. |
| `MqttCutFrames.CutFrameRead` | src/mqtt_publisher.cpp:17-25 | After a frame cut at any byte, exactly these packets are read of it and of any DISCONNECT bytes: a DISCONNECT if nothing of the frame was taken, nothing if it still lacks bytes, and otherwise what its body with the missing bytes replaced is read as. |
| `MqttCutProofs.CutPublishRead` | src/mqtt_publisher.cpp:152-155 | For a PUBLISH that is the message with its last bytes replaced, if the size bytes are there, and nothing else. |
| `MqttCutProofs.CutPublishWhen` | src/mqtt_publisher.cpp:152-155 | A packet is read of a cut PUBLISH if and only if the DISCONNECT bytes are as many as it lacks and no size byte is missing; it is the very message that was cut if and only if the missing bytes are those of a DISCONNECT. |
| `MqttCutProofs.CutConnectRead` | src/mqtt_publisher.cpp:121 | For a CONNECT it is the packet with the end of its last field, password, user name or client id, replaced. |
| `MqttCutProofs.CutConnectWhen` | src/mqtt_publisher.cpp:121 | Both equivalences for a cut CONNECT. |
| `MqttCutFrames.DisconnectRead` | src/mqtt_publisher.cpp:17-25 | Two DISCONNECT bytes are a DISCONNECT packet (section 3.14), fewer an incomplete one. |
| `MqttPublisher.Publisher.constructor` | include/hids/mqtt_publisher.hpp:32-52 | A new publisher has no socket and an empty record. |
| `MqttPublisher.Publisher.SendAll` | src/mqtt_publisher.cpp:43-54 | For every script of short, zero, interrupted and failing sends the loop ends, and result, bytes accepted and answers used are those of the send plan. |
| `MqttPublisher.Publisher.RecvExact` | src/mqtt_publisher.cpp:56-72 | The same for receiving; on success the buffer holds the first n bytes that were delivered. |
| `MqttPublisher.Publisher.Disconnect` | src/mqtt_publisher.cpp:17-25 | Sends what it can of a DISCONNECT, closes the socket, forgets it; does nothing without one. |
| `MqttPublisher.Publisher.WalkAddresses` | src/mqtt_publisher.cpp:85-94 | All sockets tried are closed again except the first that connects, which is the one returned. |
| `MqttPublisher.Publisher.Greet` | src/mqtt_publisher.cpp:97-130 | CONNECT out, CONNACK in; a short send, a short answer or any answer but an acceptance hangs up, with the cause on record. Which answers are acceptances is said by ConnectSucceedsWhen. |
| `MqttPublisher.Publisher.Connect` | src/mqtt_publisher.cpp:74-131 | The new state and the result are the session machine's, for every script. |
| `MqttPublisher.Publisher.EnsureConnected` | src/mqtt_publisher.cpp:133-136 | A live session is left alone; otherwise one connection attempt is made. |
| `MqttPublisher.Publisher.Publish` | src/mqtt_publisher.cpp:138-157 | The new state and the result are the session machine's, for every script. |
| `MqttPublisher.Use` | src/mqtt_publisher.cpp:15-157 | Any sequence of calls followed by destruction is a run of the session machine followed by hanging up. |
| `MqttSessionProofs.RunKeeps` | src/mqtt_publisher.cpp:15-157 | Every run keeps the invariant: each socket accepted exactly the bytes that the call record and the way it ended account for, the current socket alone is open, and it was accepted by a CONNACK. |
| `MqttRunProofs.SendTakesOffer` | src/mqtt_publisher.cpp:43-54 | The send loop gets out as many bytes as the script takes before its first failure, up to the whole; interruptions do not matter. |
| `MqttRunProofs.SendAllAppends` | src/mqtt_publisher.cpp:43-54 | On success the socket has accepted exactly those bytes in order; on failure exactly a proper prefix; no other socket changes. |
| `MqttRunProofs.RecvHearsSpeech` | src/mqtt_publisher.cpp:56-72 | What is received is the prefix of what the peer says before failing or closing. |
| `MqttRunProofs.ConnectSucceedsWhen` | src/mqtt_publisher.cpp:74-131 | Connecting, over an old session or none, succeeds if and only if an address answers, the whole CONNECT goes out, and the first four bytes back are read by section 3.2 of MQTT 3.1.1 as a CONNACK with return code 0. |
| `MqttRunProofs.RefusalHangsUp` | src/mqtt_publisher.cpp:123-130 | A CONNACK with any other return code makes connect return false with no socket left open. |
| `MqttRunProofs.ConnectStartsAfresh` | src/mqtt_publisher.cpp:74-95 | After connect every older socket is closed, and a session that came up runs on a new one. |
| `MqttRunProofs.PublishSucceedsWhen` | src/mqtt_publisher.cpp:138-157 | Over a live session publishing succeeds if and only if the whole frame goes out. |
| `MqttRunProofs.PublishReconnects` | src/mqtt_publisher.cpp:133-157 | Without a session publishing succeeds if and only if connecting does and the whole frame then goes out on the new socket. |
| `MqttRunProofs.RunLogsEveryCall` | src/mqtt_publisher.cpp:138-157 | The record holds every publish call of the run once, in call order. |
| `MqttRunProofs.RunFraming` | src/mqtt_publisher.cpp:15-157 | Whole-run framing: for every sequence of calls and every script, the reader makes of each socket's bytes the CONNECT and then exactly the publishes that returned true on it, in call order; what else it reads follows a send that stopped short and is exactly what the cut frame and the DISCONNECT bytes make together. |
| `MqttRunProofs.OneSocketOpen` | src/mqtt_publisher.cpp:15-157 | Between calls a socket is open if and only if it is the current one; what it received is then one CONNACK with return code 0, by the reader of section 3.2; every other was closed once. |
| `MqttRunProofs.EverySocketClosedOnce` | src/mqtt_publisher.cpp:15-25 | After any run and destruction every socket ever opened has been closed exactly once. |
| `MqttAtMostOnce.SpansAccountForSocket` | src/mqtt_publisher.cpp:133-157 | After every run the bytes of each socket are the concatenation of spans owned by the handshake, one publish call each, or the DISCONNECT. |
| `MqttAtMostOnce.AtMostOnce` | src/mqtt_publisher.cpp:133-157 | A call that returned true has its whole frame accepted in exactly one span of one socket over the whole run; of a call that returned false at most one span, a proper prefix, was ever accepted. Nothing is sent again after a reconnect. What receivers make of the bytes is stated by MqttReceivers.EveryCallRead. |
| `MqttReceivers.EveryCallRead` | src/mqtt_publisher.cpp:133-157 | Over every run, the publishes that the receivers of all sockets read together are exactly those of the calls: of each call that returned true its message once; of each call that returned false at most one, if and only if DISCONNECT bytes completed its frame, and its own message if and only if they are the very bytes it lacked. |
| `MqttReceivers.FailingLinkDelivers` | src/mqtt_publisher.cpp:17-25 | The input: for every message whose frame ends in E0 or E0 00, a link on which the publish call returns false and the receiver reads the CONNECT and that message. |
| `MqttReceivers.FalseButReadWhen` | src/mqtt_publisher.cpp:138-157 | Some session delivers a message although its call returned false if and only if its frame ends in one of these two ways. |
| `Vectors.RowInBounds` | include/hids/model.hpp:69-87 | Every flat index of row i of an h by n matrix is in bounds, for all dimensions. |
| `Vectors.FirstMaxUnique` | include/hids/model.hpp:88-89 | There is only one first index of a largest entry. |
| `Mlp.ScaleMeaning` | include/hids/model.hpp:57-64 | The scaler is linear from [min, max] onto [0, 1], sends everything outside to the nearer end, and gives 0 on an empty or inverted range. |
| `Mlp.ScaleMonotone` | include/hids/model.hpp:57-64 | The scaler never reverses an order. |
| `Mlp.LogitsMeaning` | include/hids/model.hpp:67-87 | The logits come of three affine steps, each entry a bias plus the sum of one row times the input, with the negative entries of the first two replaced by 0 and the last left as it is. |
| `Model.Model.Normalize` | include/hids/model.hpp:58-64 | Every entry of the output is the scaled entry of the input. |
| `Model.Model.ForwardLayer` | include/hids/model.hpp:70-87 | The flat row-major loop with its accumulator computes W x + b of matrix algebra, rectified or not. |
| `Model.Model.ArgMax` | include/hids/model.hpp:88-89 | The result is the least index at which the maximum is attained. |
| `Model.Model.WinnerConfidence` | include/hids/model.hpp:90-94 | The accumulated sum gives the confidence whose meaning is proved in Softmax. |
| `Model.Model.Classify` | include/hids/model.hpp:68-89 | For all positive dimensions the logits are W3 relu(W2 relu(W1 x + b1) + b2) + b3 and the class is the first maximum. |
| `Model.Model.Predict` | include/hids/model.hpp:68-96 | The same, with the winner's confidence. |
| `Softmax.ConfidenceIsProbability` | include/hids/model.hpp:90-94 | The confidence is the winner's softmax probability, although it is computed from shifted logits. |
| `Softmax.ProbabilitiesAddUp` | include/hids/model.hpp:90-94 | The probabilities of all classes add up to 1. |
| `Softmax.ProbabilitiesInProportion` | include/hids/model.hpp:90-94 | They are positive and in proportion to the exponentials of the logits, which with their sum determines them. |
| `Softmax.ConfidenceIsGreatest` | include/hids/model.hpp:88-94 | No class has a greater softmax probability. |
| `Softmax.ConfidenceIgnoresShift` | include/hids/model.hpp:90-94 | Adding a constant to every logit leaves the confidence as it is. |
| `Softmax.ConfidenceBounds` | include/hids/model.hpp:88-94 | The confidence lies in [1/n, 1], and is 1/n if and only if all logits are equal. |
| `ModelLoader.ReadFloats` | include/hids/model.hpp:99-105 | One array as its stored words, or the error of a short or over-long one; the numbers are tied to their bytes by ModelLoader.Load. |
| `ModelLoader.Load` | include/hids/model.hpp:30-55 | Field by field the load meets the parser on every file, and every loaded number is the value of the four bytes at its offset in the file: dimensions at 0 to 15, then the eight arrays in order, each entry in order, up to the last byte. |
| `ModelFileValues.ParsedFrom` | include/hids/model.hpp:30-55 | The same of the parser itself, for every file that it accepts. |
| `ModelLoader.WriteModel` | tools/make_ref_model.py:64-70 | The exporter's writes produce the layout for which the round trip is proved. |
| `ModelFileProofs.Acceptance` | include/hids/model.hpp:30-55 | For every file and size of `size_t`: it loads if and only if its dimensions are positive, no array is too long, and its size is the one the wrapped products call for. |
| `ModelFileProofs.ExactAcceptance` | include/hids/model.hpp:30-55 | When no product wraps, a file with arrays within the library's limit loads if and only if it has exactly 16 + 4 (2 n_in + h1 n_in + h1 + h2 h1 + h2 + n_out h2 + n_out) bytes. |
| `ModelFileProofs.NoPrefixNoExtension` | include/hids/model.hpp:51-53 | No proper prefix and no extension of a file that loads does load. |
| `ModelFileProofs.SizeCheckExactWhen` | include/hids/model.hpp:42-53 | For every header, the size check is exact for all files with that header if and only if no product wraps and no array exceeds the library's limit. |
| `ModelFileProofs.NoWrapOn64Bit` | include/hids/model.hpp:44-48 | With a 64-bit `size_t` no product wraps. |
| `ModelFileProofs.WrapExample` | include/hids/model.hpp:44-48 | With a 32-bit `size_t`, 65536 inputs and 65536 hidden units wrap. |
| `ModelFileProofs.LayoutRoundTrip` | tools/make_ref_model.py:64-70 | Loading the written layout returns the same model if and only if no product wraps and no array is too long. |
| `ModelFileProofs.ParseInverse` | include/hids/model.hpp:30-55 | Writing what was loaded gives the same file, byte for byte. |
| `ModelFileProofs.LoadedIsWellSized` | include/hids/model.hpp:42-49 | A model loaded without wrap-around has arrays of the sizes inference needs. |
| `Debouncer.Debouncer.constructor` | include/hids/debouncer.hpp:12-15 | A new debouncer stands for the empty history, and never requires fewer than one window. |
| `Debouncer.Debouncer.Update` | include/hids/debouncer.hpp:18-37 | The three fields always stand for the whole history; the verdict is true exactly when the streak of the history reaches the needed length. |
| `DebouncerProofs.FiresOnCompletedBlock` | include/hids/debouncer.hpp:18-37 | An alert at window i if and only if the block of alarming windows of one class that ends there, and cannot be extended to the left, has exactly the needed length. |
| `DebouncerProofs.AlertMeaning` | include/hids/debouncer.hpp:14-37 | Written out: the last windows, as many as required and at least one, have one class other than the normal one with enough confidence, and the window before them is not such a one. |
| `DebouncerProofs.OneAlertPerEpisode` | include/hids/debouncer.hpp:1-5 | The alerts of any history are as many as its maximal blocks of at least the needed length. |
| `DebouncerProofs.AlertsBounded` | include/hids/debouncer.hpp:18-37 | Alerts times needed windows is at most the number of windows. |
| `DebouncerProofs.StreakOverflowsWhen` | include/hids/debouncer.hpp:25-31 | The streak leaves the range of an `int` if and only if the last 2^31 windows are one block. |
| `DebouncerProofs.StreakOverflows` | include/hids/debouncer.hpp:25-31 | Such a history: one alarming window 2^31 times. |
| `Counters.DeltasConserve` | src/perf_collector.cpp:80-87 | Over any run of readings, deltas add up to last less baseline plus what was reached at each decrease. |
| `Counters.MonotoneDeltasConserve` | src/proc_collector.cpp:78-84 | For monotone readings, exactly last less baseline. |
| `PerfCollector.PerfCollector.constructor` | src/perf_collector.cpp:44-72 | One counter per route, in order, with the descriptors that opened; the missing features are exactly those with none. |
| `PerfCollector.DescriptorsOfCounter` | src/perf_collector.cpp:44-72 | A counter has as many descriptors as there are CPUs on which its tracepoint opens, none if it has no id, and starts at 0. |
| `PerfCollector.MissingWhen` | src/perf_collector.cpp:44-72 | A name is listed as missing if and only if its tracepoint has no id or opens on no CPU. |
| `PerfCollector.PerfCollector.ReadGroup` | src/perf_collector.cpp:35-42 | The sum of the successful reads, modulo 2^64. |
| `PerfCollector.PerfCollector.Sample` | src/perf_collector.cpp:80-87 | Every counter's last total and every written value follow from that counter's own reads. |
| `PerfCollector.SampleWritesDelta` | src/perf_collector.cpp:80-87 | With distinct names a sample leaves under each name that counter's delta, whatever is written later. |
| `PerfCollector.SampleWritesNames` | src/perf_collector.cpp:80-87 | A sample adds exactly the counters' names and leaves all other entries alone. |
| `PerfCollector.DeltaExactWhen` | src/perf_collector.cpp:80-87 | With monotone per-CPU counts and no overflow, for any two reads of which either may have failed on any descriptors: the delta is the sum of the per-CPU increments if and only if both reads lost as much, or, where the total fell, the second lost as much as the first should have read. |
| `PerfCollector.DeltaIsSumOfIncrements` | src/perf_collector.cpp:35-42 | With every read of both windows succeeding it is that sum. |
| `PerfCollector.FailedReadOverCounts` | src/perf_collector.cpp:80-87 | An example: one failed read turns a true increase of 1 into 6 in its own window, and into 8 in the window after it. |
| `ProcCollector.ReadDiskstats` | src/proc_collector.cpp:30-59 | Each total is the sum over all lines of what the line contributes to it, modulo 2^64. |
| `ProcCollector.AddLine` | src/proc_collector.cpp:49-56 | The guarded additions add each field only if it and all before it parse. |
| `ProcCollector.ProcCollector.Sample` | src/proc_collector.cpp:61-98 | The five values are zeros on the first call and the rates since the last call afterwards; other entries stay. |
| `DiskMeaning.TotalsOfKernelFields` | src/proc_collector.cpp:38-53 | For any records printed as the kernel documents its fields, the four totals are the sums of writes merged, sectors written, milliseconds writing and milliseconds doing I/O over the whole disks, modulo 2^64. |
| `DiskMeaning.ShortLineIgnored` | src/proc_collector.cpp:39 | A line of fewer than fourteen words changes no total. |
| `ProcProofs.LineAddsPrefix` | src/proc_collector.cpp:49-56 | A line contributes exactly the fields before its first bad one. |
| `ProcProofs.MalformedLineIgnoredWhen` | src/proc_collector.cpp:54-56 | A malformed line contributes nothing if and only if those fields are all zero. |
| `DiskMeaning.SampleReports` | src/proc_collector.cpp:61-98 | A first sample reports five zeros. Each later one reports what the counters gained since the one before: merged writes, 512 bytes a sector, milliseconds, and rates that times the elapsed time give back sectors and ticks; the time is a millisecond if the clock did not advance. |
| `ProcProofs.UtilBound` | src/proc_collector.cpp:78-94 | If no line's ticks rise by more than the elapsed milliseconds, `util` lies between 0 and the number of disk lines. |
| `ProcProofs.UtilWithinDisks` | src/proc_collector.cpp:78-94 | With one line for each disk of a stable set, between 0 and the number of whole disks. |
| `ProcProofs.UtilReached` | src/proc_collector.cpp:94 | Any number of distinct disks, one line each, that are busy throughout a window make `util` their number. |
| `ProcProofs.UtilIsFractionWhen` | src/proc_collector.cpp:94 | `util` is at most 1 in every such window if and only if there is at most one whole disk. |
| `Routing.TracefsPath` | include/hids/feature_routing.hpp:38-42 | The in-place replacement turns every colon of the stripped name into a slash and changes nothing else. |
| `Routing.RouteFeatures` | include/hids/feature_routing.hpp:44-62 | The three lists built in one pass are the three selections of the order list. |
| `Routing.RoutesPartition` | include/hids/feature_routing.hpp:44-62 | Together they hold every name of the order list as often as it does. |
| `Routing.SelectServes` | include/hids/feature_routing.hpp:50-60 | A name is in a collector's list if and only if it is in the order list and that collector serves it. |
| `Routing.SelectKeepsOrder` | include/hids/feature_routing.hpp:50-60 | Names keep their order. |
| `Routing.PathHasNoColon` | include/hids/feature_routing.hpp:38-42 | No tracepoint path has a colon left. |
| `Routing.PathOfTracepoint` | include/hids/feature_routing.hpp:28-42 | The path of subsystem:event, with either suffix or none, is subsystem/event; a name without a colon is a system call's. |
| `Routing.PerfPathsHaveNoColon` | include/hids/feature_routing.hpp:50-60 | So none of the paths routed to the tracepoint collector has one. |
| `Aggregator.WindowAggregator.Assemble` | include/hids/window_aggregator.hpp:20-27 | Entry i is the merged value of feature i, or 0. |
| `HidsService.HidsService.Setup` | src/hids_service.cpp:28-70 | Fails exactly on a model that does not load, else on one with the wrong number of inputs, else on one with the wrong number of classes; otherwise the model holds the numbers of the file, collectors, engine, debouncer and publisher are wired to the order list, and if the arrays have the sizes inference needs, the service is fresh and valid. |
| `HidsService.HidsService.Collect` | src/hids_service.cpp:119-120 | The merged map is the union of what the collectors write, and each collector's memory advances. |
| `HidsService.HidsService.Infer` | include/hids/inference_engine.hpp:25-31 | The result carries the raw vector scaled entry by entry, the first class of the largest logit of the model on it, and that class's softmax probability. |
| `HidsService.HidsService.Observe` | src/hids_service.cpp:119-133 | One window's event, as a function of settings, readings and history; it names the class of the first largest logit on its features, with its probability; the debouncer's history grows by it. |
| `HidsService.HidsService.Report` | src/hids_service.cpp:135-141 | The publish calls of one window take the session where a run over its messages takes it. |
| `HidsService.HidsService.Run` | src/hids_service.cpp:89-158 | The events of a whole run are a function of settings, readings and history in which the network does not occur; the session is the one that connects, attempts those events' messages and disconnects. |
| `HidsService.TwoBrokers` | src/hids_service.cpp:116-141 | Telemetry never affects detection: two services with the same settings, memory and readings, but any two networks and brokers, make the same events. |
| `DetectionProofs.VerdictsAreFirings` | src/hids_service.cpp:126-133 | In any run, an event is an alert exactly when the debouncer fires on the windows up to it. |
| `DetectionProofs.AlertsAreEpisodes` | src/hids_service.cpp:133 | Over a run, alerts are as many as maximal blocks of windows long enough, and bounded by the windows. |
| `DetectionProofs.AttemptCounts` | src/hids_service.cpp:135-141 | Over a run there is one attempt on the events topic per window if so configured, else none, and one on the alerts topic per alert. |
| `DetectionProofs.AttemptsInWindowOrder` | src/hids_service.cpp:135-141 | A window's attempts come after those of all earlier windows: its event message, if every window is published, and right after it its alert message, if it is an alert. |
| `DetectionProofs.FeaturesAreScaledRaws` | src/hids_service.cpp:119-132 | The k-th event carries the scaled raw vector of window k. |
| `DetectionMeaning.EventMeaning` | src/hids_service.cpp:119-132 | For every window of every run: the event has the features scaled entry by entry, the first class of the largest logit on them, its probability and its name, the host and the window's time. |
| `DetectionMeaning.AlertMeaning` | src/hids_service.cpp:133 | From a fresh start, an event is an alert exactly when the last events, as many as the configured streak and at least one, show one class that is not class 0 with at least the configured confidence, and the event before them does not. |
| `DetectionMeaning.PrimedFeature` | src/hids_service.cpp:107-132 | Every feature of every event of a primed run is, scaled, what its collector measured between the reading before, or the priming one, and the window's own: the gain of its tracepoint or disk counters, a rate, or the running time. |
| `DetectionProofs.PartsDisjoint` | src/hids_service.cpp:41-56 | The collectors that setup makes write disjoint sets of names. |
| `DetectionProofs.AnySamplingOrder` | src/hids_service.cpp:119-120 | So the merged map is the same whatever order they sample in. |
| `DetectionProofs.VectorEntry` | src/hids_service.cpp:41-56 | Entry i of the raw vector is the value that the one collector responsible for feature i computed in this window. |
| `DetectionProofs.FeatureConserved` | src/hids_service.cpp:107-120 | After priming, what a tracepoint feature reports over a run adds up to the last total less the primed one, plus what was reached at each fall. |
| `DetectionProofs.DiskFeatureConserved` | src/hids_service.cpp:107-120 | The same for merged writes, bytes and milliseconds written, in their units. |
| `ServiceProofs.WholeSessionIsRun` | src/hids_service.cpp:99-156 | A run of the service is a run of the session machine: connect, publishes, disconnect. |
| `ServiceProofs.ServiceOnTheWire` | src/hids_service.cpp:99-156 | End to end: the record holds the attempts the events call for, every socket is closed, and each socket reads as a session of the attempts that returned true on it. |
| `ServiceProofs.SetupWires` | src/hids_service.cpp:41-56 | With distinct feature names, the service that setup leaves, and its state after priming, is what the results on disjoint parts, vector entries and conservation start from. |
| `ServiceProofs.ServiceVerdicts` | src/hids_service.cpp:89-141 | Every event that a run of a valid service makes is its own model's verdict on the features it carries. |
| `DetectionEvent.JsonEscape` | include/hids/detection_event.hpp:28-42 | The loop escapes every character of the string, in order. |
| `DetectionEvent.EventToJson` | include/hids/detection_event.hpp:53-74 | The text built piece by piece is the object whose round trip is proved. |
| `JsonProofs.EscapeRoundTrip` | include/hids/detection_event.hpp:28-42 | Up to the closing quote and no further, a reader of RFC 8259 section 7 recovers the string, if its only control characters are newline, tab and return; any other string is unreadable. |
| `JsonProofs.EventRoundTrip` | include/hids/detection_event.hpp:53-74 | Reading the object recovers every string, the verdict, the numbers' texts and the number of features if the three strings are clean, and fails otherwise. |
| `MessageMeaning.MessagesTell` | src/hids_service.cpp:135-141 | Of the bytes of either message of a window a JSON reader makes the event; the topic's last level is its kind, the level above is the host if and only if the host has no slash, and neither message is retained. |
| `Csv.Split` | src/replay_main.cpp:44-50 | The stream loop yields the trimmed cells, and none after a final comma. |
| `Csv.SameCells` | src/replay_main.cpp:37-50 | On a row of cells with any blanks around it, C++ and Python see the same cells. |
| `Tally.Tally.Record` | src/replay_main.cpp:114-119 | One predicted row changes exactly one of the three ways a row is counted, and is dumped under its own index. |
| `Replay.ColIndex` | src/replay_main.cpp:83-86 | The first column of a name, or -1. |
| `Replay.ProcessRow` | src/replay_main.cpp:101-121 | The tally after a line, with blank, short and unparseable lines, follows from the line and the tally before; what that is by names and cells is said in ReplayMeaning. |
| `Replay.ProcessFile` | src/replay_main.cpp:75-122 | The same for a file: skipped, stopped by a missing column, or read to its end. |
| `Replay.ProcessFiles` | src/replay_main.cpp:156-157 | The same for a list of files. |
| `ReplayMeaning.RowRecorded` | src/replay_main.cpp:101-120 | Under a header, a row whose cells in the columns headed by the feature names are numbers is predicted from exactly those numbers, each as the feature that heads its column, and dumped under the next index with the class in the label column: -2 if there is no such class, -1 without that column. |
| `ReplayMeaning.FileRecorded` | src/replay_main.cpp:75-121 | A file with a header of distinct names stops the tool exactly if a feature has no column; else blank lines leave no trace, lines that lack a needed cell are counted as bad, and all others are recorded so, in order. |
| `ReplayMeaning.FileStream` | src/replay_main.cpp:100-115 | The stream such a file adds is its usable rows in order, numbered on from the rows before. |
| `Oracle.RunRows` | tools/bin_oracle.py:110-135 | The oracle's loop over the rows, against its own declarative form, with its own list of numbers. |
| `ReplayProofs.ListIsNumbers` | tools/bin_oracle.py:116-117 | The oracle's list and the tool's array hold the same numbers in the same places, or neither can be made. |
| `ReplayProofs.ScalersAgree` | tools/bin_oracle.py:82-86 | The two scalers agree on a value if and only if the range is positive or the value is not above it. |
| `ReplayProofs.ScaledInputsAgree` | tools/bin_oracle.py:82-86 | They agree on a vector if and only if that holds of every feature. |
| `ReplayProofs.GuessIsPrediction` | tools/bin_oracle.py:84-90 | The oracle's array expressions and the tool's flat loops predict the same class on inputs that are scaled alike. |
| `ReplayProofs.SameRowWhen` | src/replay_main.cpp:101-120 | On a row that both predict alike, the programs record the same if and only if its label is not written as -1. |
| `ReplayProofs.SameFile` | src/replay_main.cpp:88-121 | On a file with a header of distinct names, and rows that are blank or read alike, both programs do the same. |
| `ReplayProofs.SameStream` | src/replay_main.cpp:156-157 | On any list of such files both print the same stream of index, label and prediction and have the same counts, whether they read all files or stop at a missing column. |
| `ReplayProofs.EmptyFileDiffers` | tools/bin_oracle.py:101-108 | Empty and unreadable files are skipped by the tool and stop the oracle. |
| `ReplayProofs.DegenerateRangeDiffers` | tools/bin_oracle.py:82-86 | A model and an input with an empty range on which the two programs predict different classes. |
| `ReplayProofs.UnlabelledRowWhen` | src/replay_main.cpp:106-117 | On a row without a label the programs record the same if and only if they predict the same class. |
| `ReplayProofs.DegenerateFileDiffers` | tools/bin_oracle.py:82-86 | So for that model they print different streams for a file with a header and one row. |
| `Metrics.Report` | src/replay_main.cpp:169-181 | The report of every class and the macro F1, from loops over rows and columns. |
| `Metrics.ColumnsAddUp` | src/replay_main.cpp:171-172 | Column sums and row sums of the matrix add up to the same. |
| `MetricsMeaning.MatrixCountsRows` | src/replay_main.cpp:114-119 | After any files, entry (r, c) of the matrix is the number of dumped rows of true class r predicted as c. |
| `MetricsMeaning.ReportCountsRows` | src/replay_main.cpp:169-176 | In terms of the dumped rows: precision is the share of hits in the labelled rows predicted as the class, recall their share in the rows of the class, F1 twice the hits in both together, and support the rows of the class. |
| `MetricsMeaning.MacroF1AddsUp` | src/replay_main.cpp:169-181 | The sum that the macro F1 divides by the number of classes is that of those shares. |
| `MetricsProofs.ErrorsCountedOnce` | src/replay_main.cpp:171-173 | False positives and false negatives over all classes are both the total less the trace. |
| `MetricsProofs.ReportBounds` | src/replay_main.cpp:174-176 | Precision, recall and F1 lie in [0, 1], and F1 is 2tp / (2tp + fp + fn) when tp is positive, else 0. |
| `MetricsProofs.MacroF1Bounds` | src/replay_main.cpp:169-181 | So does the macro F1. |
| `MetricsProofs.FilesBalanced` | src/replay_main.cpp:101-121 | After any files, even if a missing column stops the tool, the matrix sums to the total and its trace to the correct ones; if it is not stopped, each non-blank row of a readable file was counted exactly once. |
| `MetricsProofs.ReplayConserves` | src/replay_main.cpp:156-173 | The whole program from an empty tally: all of this, and the errors it leaves. |

## Left out

- IEEE rounding, NaN, infinities and the numeric value of `exp`: reals stand for floats, so bit-exact agreement of C++ and NumPy is not claimed.
- Real sockets, time-outs, SIGPIPE, `perf_event_open`, tracefs lookup of a tracepoint id, `/sys/block` (a set of names), file I/O: results of such calls are parameters.
- Unbounded runs of EINTR, and descriptors that the kernel reuses.
- Closing of the tracepoint descriptors in the collector's destructor.
- Keep-alive timing, sleeping, signals, `--dump-features` output, `printRoutes`, messages on stderr.
- `src/config.cpp` and `src/main.cpp`: key lookup and argument handling.
- Number formatting and ISO timestamps; UTF-8 in strings; the JSON reader takes no white space between tokens and no surrogate pairs.
- The shipped `FEATURE_ORDER` and class names: they are parameters, and distinct feature names are assumed where it matters.
- Directory walking, the tool's accuracy line and matrix printing, the oracle's `load_bin` and its report; lines come already split at newlines.
- Cells that C++ and Python parse differently, such as a number with text after it.
- The collector interface: the three collectors are optional fields of the service rather than a list, sampled in the order in which setup makes them; the resource collector is inlined.
- The three layer loops of `predict`, which differ only in their arrays, are one method called three times; `load`, `sample`, `toJson` and `process_file` are split into helpers.
- Bit operations are written as arithmetic: `& 0x7F` and `>> 7` as remainder and quotient, setting a clear flag as addition.
- Debouncer.Debouncer.Update: `streak_` is unbounded here, because what the program does when its `int` overflows is undefined; `DebouncerProofs.StreakOverflowsWhen` says exactly when that is.
- HidsService.HidsService.Setup: promises a valid service only for a model whose arrays have matching sizes, which `ModelFileProofs.LoadedIsWellSized` gives whenever no product wraps; what inference does on a model loaded with a wrapped product, reading past its arrays, is not modelled.
- MqttRunProofs.RunFraming: assumes that client id, user name and password have fewer than 65536 bytes, keep-alive is in 0..65535, and every message fits its frame; the round trips show that each of these is needed.
- MessageMeaning.MessagesTell: assumes strings whose characters are bytes, which those of the C++ program are.
- ReplayMeaning.FileRecorded: speaks of lines of non-empty cells, with blanks around the line only, and of blank lines.
- How a line of `/proc/diskstats` is split into words: a line is the sequence of its words, each with what `stoull` makes of it.
- JsonProofs.EventRoundTrip: assumes that the formatted numbers are numbers by section 6 of RFC 8259, which a NaN would not be.
- ReplayProofs.SameStream: assumes rows of non-empty cells with no white space at their ends other than the blanks around the line.
- ModelLoader.Load: running out of memory for an array within the library's limit is not modelled.
