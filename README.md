# ESP32-S3 USB host data logger — Dafny model

The firmware turns an ESP32-S3 into a USB host for a CDC (virtual serial)
device. It finds the device's bulk-IN endpoint, keeps one bulk transfer
running, and feeds every received byte into a global line buffer. Each
completed line is stamped with the real-time-clock time. It is then printed
on the serial console and appended to a log file on the SD card. A serial
command loop sets and reads the clock, starts a new log file and prints help.

This project models the logic of `src/main.cpp` in Dafny:

- `LineReassembly` holds the byte-by-byte step of the line buffer as a pure
  function (`Step`, `Run`) and the lemmas that hold over whole streams:
  - nothing is lost and order is kept;
  - the buffer never passes its ceiling of 1014 characters;
  - every line feed emits exactly one line;
  - carriage returns are ignored;
  - a stream without terminators is cut into 1015-character lines;
  - the result does not depend on how the stream is split into transfers.
- `DataLogger.Logger` is a class holding the firmware's globals:
  `rtc_working`, `sd_available`, `currentLogFile`, `lineBuffer`,
  `cdc_in_endpoint`, and the card's files as a ghost map from file name to
  lines. Its methods are the transfer callback (the byte loop, written as a
  loop over the received bytes), `writeToSD`, the descriptor walk run on
  device attach, log rotation, and the command loop.
- `EndpointResolver` walks a configuration-descriptor image, given as bytes,
  with a `while` loop. The loop is proved against a selection rule stated
  with quantifiers over the list of descriptors. In words: the first bulk-IN
  endpoint that comes after a qualifying interface wins, and the interface
  reported is the most recent qualifying one.
- `Formatting` covers `getTimeString`, `createLogFileName` and the
  `%04d-%02d-%02d %02d:%02d:%02d` text. For a reading whose fields fit
  their widths (a year below 10000, the other fields below 100), each field
  read back from a timestamp or file name gives the clock value it came
  from.
- `Commands` covers trimming and recognising a console command, and the
  fixed-offset `settime` parser. The line the host-side script sends
  (`set_rtc_time.py`) sets the clock to exactly the time it was made from.

Clock readings, the SD card's "open succeeded" answer and the received
transfers are inputs to the model.

## Model

| member | source | states |
|---|---|---|
| `LineReassembly.Step` | src/main.cpp:111-137 | one byte keeps the buffer within 1014 characters, emits at most one line, and the emitted text plus the new buffer is the old buffer plus the byte unless the byte is CR or LF |
| `LineReassembly.RunNoLoss` | src/main.cpp:111-137 | over any byte run, the emitted texts followed by the final buffer equal the starting buffer followed by the input with CR and LF removed, in arrival order |
| `LineReassembly.RunBound` | src/main.cpp:126-135 | the buffer stays at most 1014 characters; a line ended by LF is at most 1014 long; a cut-off line is exactly 1015 long; no emitted text holds CR or LF |
| `LineReassembly.RunCountsLineFeeds` | src/main.cpp:114-120 | the lines not cut off are exactly as many as the LF bytes, so every LF emits one line, even on an empty buffer |
| `LineReassembly.LineFeedEmitsBuffer` | src/main.cpp:114-120 | an LF emits exactly the buffered text and leaves the buffer empty |
| `LineReassembly.RunIgnoresCR` | src/main.cpp:121-123 | removing the CR bytes from the input changes neither the lines nor the buffer |
| `LineReassembly.RunWithoutTerminators` | src/main.cpp:126-135 | from a buffer of m characters, k bytes with no CR or LF give (m+k)/1015 cut-off lines and leave (m+k)%1015 characters buffered |
| `LineReassembly.RunSplit` | src/main.cpp:60 | because the buffer is global, feeding xs and then ys gives the same lines and buffer as feeding xs+ys |
| `LineReassembly.RunChunksIsRun` | src/main.cpp:106-146 | a stream split into any sequence of transfers gives the same lines and buffer as the whole stream fed at once |
| `DataLogger.Logger.TransferCallback` | src/main.cpp:106-146 | an accepted transfer (not the reader-task context 999, status COMPLETED, at least one byte) feeds its bytes through `Run`, prints the rendered lines and appends them to the log file when logging is on; any other transfer changes nothing; resubmits exactly when the context is not 999 |
| `DataLogger.Logger.WriteToSD` | src/main.cpp:95-103 | appends the message as one line of the current log file; no change without a card, without a log-file name, or when the open fails |
| `DataLogger.Logger.StartLogFile` | src/main.cpp:591-602 | names the file from the clock, creates it with one banner line, and sets the name to "" when the file cannot be created |
| `DataLogger.Logger.RotateLog` | src/main.cpp:588-606 | with a card, switches to a new clock-named file that starts with the new-session banner, or clears the name on failure; without a card nothing changes |
| `DataLogger.Logger.constructor` | src/main.cpp:489-512 | the state after start-up: empty line buffer, endpoint 0, and with a card a clock-named log file holding the start banner, or no file name if it could not be created |
| `DataLogger.Logger.HandleCommand` | src/main.cpp:547-620 | dispatches the trimmed command; `settime` reports the parsed outcome, `gettime` the current time or no clock, `newlog` rotates as above, `help` shows the log file only while logging; nothing but `newlog` changes state |
| `DataLogger.Logger.SetupCdcReading` | src/main.cpp:236-279 | the walk's result satisfies the selection rule; the stored endpoint becomes the found address, and is left unchanged when nothing is found |
| `EndpointResolver.ResolveEndpoint` | src/main.cpp:241-277 | the loop reads descriptors until wTotalLength or the first bulk-IN endpoint that follows a qualifying interface (class 0x0A or bNumEndpoints > 0); it finds nothing exactly when the descriptors it read hold no such endpoint, and otherwise returns that endpoint, whose address has bit 7 set, and the number of the most recent qualifying interface before it |
| `EndpointResolver.ResolvesUnique` | src/main.cpp:244-273 | the selection rule picks one result: two results that satisfy it are equal |
| `EndpointResolver.EarlyStopResolves` | src/main.cpp:241-275 | the walk breaks at the first bulk-IN endpoint: a configuration whose last byte inside wTotalLength is a zero bLength after that endpoint is accepted and resolves interface 0, endpoint 0x81 |
| `EndpointResolver.AcmConfigResolves` | src/main.cpp:241-277 | on a usual CDC-ACM configuration (communication interface with an interrupt-IN endpoint, then a CDC Data interface with bulk OUT 0x02 and bulk IN 0x81) the walk terminates and resolves interface 1, endpoint 0x81 |
| `Formatting.Pad` | src/main.cpp:73-75 | `%0Nd` output: digits only, width N or the number's own digit count if larger |
| `Formatting.ParsePad` | src/main.cpp:560-565 | reading back a zero-padded number gives the number |
| `Formatting.PadParse` | src/main.cpp:571-572 | printing a digit field's value back at the field's width gives the field as typed, leading zeros included |
| `Formatting.TimeString` | src/main.cpp:66-77 | without a clock the timestamp is "[NO_RTC]" |
| `Formatting.TimeStringReadBack` | src/main.cpp:71-76 | with a clock and fields that fit their widths, the timestamp is 21 characters "[DD.MM.YYYY HH:MM:SS]" and each field reads back as the clock value |
| `Formatting.TimeStringNotMarker` | src/main.cpp:66-76 | with a clock, a timestamp is never "[NO_RTC]" |
| `Formatting.LogFileName` | src/main.cpp:80-92 | without a clock the log file is "/usb_log.txt" |
| `Formatting.LogFileNameReadBack` | src/main.cpp:86-91 | with a clock, for a reading whose fields fit their widths, the name is the 24 characters "/log_YYYYMMDD_HHMMSS.txt" and each field reads back as the clock value |
| `Formatting.LogFileNameInjective` | src/main.cpp:86-91 | readings whose fields fit their widths and that differ in any field give different file names |
| `Formatting.LogFileNameNotFallback` | src/main.cpp:80-92 | with a clock, the name is never the fallback "/usb_log.txt" |
| `Formatting.IsoTextReadBack` | src/main.cpp:560-565 | for a reading whose fields fit their widths, the "YYYY-MM-DD HH:MM:SS" text is 19 characters, and the settime offsets 0-4, 5-7, 8-10, 11-13, 14-16 and 17-19 read back its fields |
| `Commands.TrimStart` | src/main.cpp:551 | only leading white space is removed, and what is left is a suffix of the text that is empty or starts with a non-space character |
| `Commands.TrimEnd` | src/main.cpp:551 | only trailing white space is removed, and what is left is a prefix of the text that is empty or ends with a non-space character |
| `Commands.Trim` | src/main.cpp:551 | `command.trim()`: the result is the text after its leading white space, followed only by white space, and neither starts nor ends with white space |
| `Commands.TrimSurrounded` | src/main.cpp:551 | white space around a text that starts and ends with a non-space character is exactly what trimming removes |
| `Commands.ParseCommand` | src/main.cpp:550-607 | after trimming, "settime" is recognised as a prefix and "gettime", "newlog" and "help" only as the whole line |
| `Commands.SetTimeCommand` | src/main.cpp:553-578 | no clock: nothing set; shorter than 27 characters: format error, nothing set; otherwise, with digit fields, the time set reprints each field exactly as typed |
| `Commands.ParseCommandPadded` | src/main.cpp:550-607 | "gettime", "newlog" and "help" are recognised with any white space around them, and "settime" followed by text ending in a non-space character is a settime command carrying that text |
| `Commands.SetTimeRoundTrip` | src/main.cpp:553-572 | the line "settime " + "%Y-%m-%d %H:%M:%S" + LF, as the host script sends it, is recognised and sets exactly the reading it was made from |
| `Commands.SetTimeEchoesText` | src/main.cpp:560-572 | when the date text has the usual separators, the printed confirmation equals the typed date text |

## Left out

- USB host plumbing is left out because it is foreign ESP-IDF calls. This covers `usb_host_task`, `client_event_cb`, device open and close, interface claim, and transfer allocation and submission (src/main.cpp:280-314, 326-413). What is kept: the resubmit decision of the callback, and the found/not-found result of the descriptor walk.
- `cdc_reader_task` (src/main.cpp:155-225) is not modelled. It is never started, and its byte loop is the same as the callback's, so it would be the same `Step`.
- The hardware part of `setup()` (serial, I2C, SPI and SD initialisation with retries, GPIO and LED blinking, RTC probing) is left out. Only its results are kept: `rtc_working` and `sd_available` are constructor inputs, and the log file it creates is modelled.
- Serial output is left out as I/O. Emitted messages are returned as a sequence; command answers are a `Reply` value, not the printed Ukrainian texts. `Serial.readString` is replaced by the raw line given to `HandleCommand`.
- Clock reads and `rtc.adjust` are left out. The clock reading is one `DateTime` input per call. `DataLogger.Logger.StartLogFile`, `DataLogger.Logger.RotateLog` and `DataLogger.Logger.constructor` use that one reading for both the file name and the banner's timestamp, while the firmware reads the clock twice (`createLogFileName` at src/main.cpp:494 and 591, then `getTimeString` at 500 and 596), so there the banner can be a second later than the name; a `SetTimeReply(Applied(t))` reply is the point where the clock is set to `t`. No range check of month, day or hour is made, as in the source.
- `DataLogger.Logger.TransferCallback` reads the clock once per transfer, but the source calls `getTimeString()` for each emitted line. It also takes one "open succeeded" answer for every `writeToSD` call of a transfer. A transfer whose lines straddle a clock tick, or a card that fails part-way through a transfer, is therefore not modelled.
- `Commands.SetTimeCommand` does not model Arduino `String::toInt` on non-digit text. A field that is not all digits gives the outcome `NonDigitField`; the model does not say what the firmware then sets.
- `Commands.Trim` removes the C `isspace` characters (space, tab, LF, VT, FF, CR), which is what Arduino's `String::trim` removes.
- `EndpointResolver.ResolveEndpoint` takes an image of the configuration descriptor. Bytes read past the end of the image read as 0, where the firmware would read whatever memory follows. The walk needs a non-zero `bLength` on every descriptor it steps over before it stops, at wTotalLength or at the first bulk-IN endpoint after a candidate interface (`WalkEnds`); the firmware loops forever on a zero length there. Descriptors after the stopping point are not constrained.
- A received byte becomes the character with the same code. In the firmware, Arduino `String` stores the raw byte, so a multi-byte UTF-8 character is modelled as several characters.
- `LineReassembly.TruncationMarker` and the banners of `DataLogger` are Unicode text in the model, while the firmware holds them as UTF-8 bytes. A rendered line therefore joins received bytes taken one per character with these texts taken one character per code point; the firmware's output is bytes throughout.
- `Formatting.TimeString` returns the full text for any reading. The firmware prints it into a 25-byte buffer (src/main.cpp:72); the text is 21 characters plus one for every digit a field has beyond its width (2, 2, 4, 2, 2, 2), and with its terminating NUL it overflows the buffer exactly when those extra digits add up to four or more, for instance four two-digit fields of 100 to 999, or three of them with a year of 10000 to 99999. The model does not capture that overflow.
- Files on the card are lines, and `println`'s line ending is not modelled. A file opened for writing is replaced and one opened for appending is extended (the ESP32 SD library's `FILE_WRITE` and `FILE_APPEND` modes).
- Concurrency between the USB callback and `loop()` is not modelled: they share globals without locks.
- `set_rtc_time.py` is serial-port discovery and serial I/O. Its `settime` format is used only in `Commands.SetTimeRoundTrip`.
