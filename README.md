# Pomodoro timer: a verified Dafny model

This project models the logic of a Pomodoro timer web application and the
script that generates its alarm sounds. It has three parts.

- **The timer hook** (`usePomodoroTimer`). The status is one of idle, work,
  break and paused, and the hook remembers which of work or break a pause
  came from. The state also holds the seconds left in the current interval,
  the number of completed work intervals (the cycle count) and the list of
  pomodoros, each an id and a colour.
  - `TimerSpec` states every step as a pure function on one state record:
    the four commands (start, pause, resume, reset) and the one-second tick.
    A tick also reports the alarms it plays.
  - `TimerHook.PomodoroTimer` is the hook as an object. Its fields are
    updated in place by one method per command and by `Tick`. Each method is
    proved to perform exactly the matching `TimerSpec` step, and to keep the
    invariant of reachable states. Alarms go to a ghost log.
- **The display helpers** (`pomodoro.ts`), in `PomodoroUtils` and
  `Decimal`:
  - the `MM:SS` clock with zero padding;
  - the linear colour of a pomodoro, from `rgb(64, 128, 0)` with the whole
    work interval left to `rgb(255, 32, 0)` at its end.
- **The WAV serialiser** (`generate-tones.mjs`), in `Tones`.
  - `BuildWavBuffer` fills a preallocated byte array. First come the 44
    bytes of the canonical RIFF/WAVE PCM header: a `fmt ` chunk for 16-bit
    mono at 44100 Hz, then a `data` chunk header. Then every sample follows
    as little-endian 16-bit two's complement.
  - The method is proved to produce exactly `WavFile(samples)`. The lemmas
    read the header fields and the samples back out of that file.
  - `ValidateToneParameters` is the guard on frequency, duration and volume.

The durations, the number of cycles before a long break and the low-alarm
threshold come from a constants module that is not part of this model. Here
they are the fields of a `Config` value, each a positive integer. The
seconds per minute of the clock is a parameter too.

Each command or tick is one atomic step. The hook keeps the status, the
time left and the cycle count twice, as React state and as a ref. The
pomodoros are state only, and the paused-from status is a ref only. Here
each becomes one field.

The timer follows the code:
- each tick subtracts exactly one second from the time left; no absolute
  deadline is kept;
- the low alarm plays on every tick whose new value is at or below the
  threshold; nothing marks that it has already played.

## Model

| member | source | states |
|---|---|---|
| TimerSpec.AddPomodoro | src/features/pomodoro/hooks/usePomodoroTimer.ts:82-92 | The result extends the list by at most one entry and never changes existing ones. The id is present afterwards. The list grows exactly when the id was absent, and the new entry is the id with the base colour. |
| TimerSpec.AddPomodoroIdempotent | src/features/pomodoro/hooks/usePomodoroTimer.ts:82-92 | A second add of the same id changes nothing. |
| TimerSpec.AddPomodoroKeepsIdsDistinct | src/features/pomodoro/hooks/usePomodoroTimer.ts:84-90 | Adding never creates a duplicate id. |
| TimerSpec.UpdatePomodoroColor | src/features/pomodoro/hooks/usePomodoroTimer.ts:67-80 | Recolouring keeps the length, the order and every id. Entries with another id are unchanged. Entries with the given id get the colour for the given seconds left. |
| TimerSpec.UpdatePomodoroColorKeepsIds | src/features/pomodoro/hooks/usePomodoroTimer.ts:73-77 | Recolouring keeps ids distinct. It keeps the ids counting 0, 1, ..., k-1 exactly when they did so before. |
| TimerSpec.Initial | src/features/pomodoro/hooks/usePomodoroTimer.ts:27-40 | The starting state is idle with a full work interval, count 0, no pomodoros, and "paused from work" recorded. |
| TimerSpec.Start | src/features/pomodoro/hooks/usePomodoroTimer.ts:170-177 | Start never changes the count or the recorded pause status. It only ever extends the pomodoro list, keeping every existing entry. The result is a work state, or the unchanged input. |
| TimerSpec.Pause | src/features/pomodoro/hooks/usePomodoroTimer.ts:179-184 | Pause keeps the time, the count and the pomodoros. The result is paused exactly when the input was not idle. |
| TimerSpec.Resume | src/features/pomodoro/hooks/usePomodoroTimer.ts:186-190 | Resume keeps the time, the count, the pomodoros and the recorded pause status. The result is never paused. |
| TimerSpec.Reset | src/features/pomodoro/hooks/usePomodoroTimer.ts:192-203 | From any state, reset gives idle with a full work interval, count 0 and no pomodoros. |
| TimerSpec.Tick | src/features/pomodoro/hooks/usePomodoroTimer.ts:94-137 | A tick plays at most one alarm. It keeps the recorded pause status, and it is paused after exactly when it was paused before. It adds nothing or exactly one to the count, and adds at most one pomodoro. `TickWhenStopped`, `TickCountdown`, `TickEndsWork` and `TickEndsBreak` give each branch exactly. |
| TimerSpec.StatusText | src/features/pomodoro/hooks/usePomodoroTimer.ts:205-219 | The label is "Ready" exactly when idle, "Paused" exactly when paused and "Work" exactly in work. It is "Long Break" or "Short Break" exactly in a break; `TickEndsWork` says which. |
| TimerSpec.InitialInv | src/features/pomodoro/hooks/usePomodoroTimer.ts:27-40 | The initial state (idle, a full work interval, count 0, no pomodoros, last paused from work) satisfies the invariant. |
| TimerSpec.InvMeans | src/features/pomodoro/hooks/usePomodoroTimer.ts:82-136 | In every state satisfying the invariant, pomodoro ids are distinct, and idle means no pomodoros and count 0. Outside idle, at least one second is left. In work, or paused from work, the ids are 0..cycleCount. In break, or paused from break, they are 0..cycleCount-1. |
| TimerSpec.StartKeepsInv | src/features/pomodoro/hooks/usePomodoroTimer.ts:170-177 | Start preserves the invariant. |
| TimerSpec.PauseKeepsInv | src/features/pomodoro/hooks/usePomodoroTimer.ts:179-184 | Pause preserves the invariant. |
| TimerSpec.ResumeKeepsInv | src/features/pomodoro/hooks/usePomodoroTimer.ts:186-190 | Resume preserves the invariant. |
| TimerSpec.TickKeepsInv | src/features/pomodoro/hooks/usePomodoroTimer.ts:94-137 | A tick preserves the invariant. In particular, the current pomodoro always has the colour of the time left, and finished ones are fully coloured. |
| TimerSpec.WorkTickKeepsInv | src/features/pomodoro/hooks/usePomodoroTimer.ts:99-132 | A tick in work keeps the invariant, whether it counts down or ends the interval. |
| TimerSpec.BreakEndKeepsInv | src/features/pomodoro/hooks/usePomodoroTimer.ts:116-119 | The tick that ends a break keeps the invariant. |
| TimerSpec.StartBehaviour | src/features/pomodoro/hooks/usePomodoroTimer.ts:170-177 | Outside idle, start changes nothing. From idle it starts work with a full interval and pomodoro 0 with the base colour. A second start is a no-op. |
| TimerSpec.PauseBehaviour | src/features/pomodoro/hooks/usePomodoroTimer.ts:179-184 | Pause keeps the time, count and pomodoros. From work or break it records that status and pauses. Elsewhere it changes nothing. |
| TimerSpec.ResumeBehaviour | src/features/pomodoro/hooks/usePomodoroTimer.ts:186-190 | Resume from paused restores exactly the recorded status and nothing else. Elsewhere it changes nothing. |
| TimerSpec.PauseThenResume | src/features/pomodoro/hooks/usePomodoroTimer.ts:179-190 | Pause then resume from work or break gives back the same state. Only the record of where the last pause came from changes. |
| TimerSpec.ResetBehaviour | src/features/pomodoro/hooks/usePomodoroTimer.ts:192-203 | From any state, reset gives idle, count 0, no pomodoros, a full work interval and "paused from work". A second reset changes nothing. |
| TimerSpec.TickWhenStopped | src/features/pomodoro/hooks/usePomodoroTimer.ts:94-98 | A tick in idle or paused changes nothing and plays nothing. |
| TimerSpec.TickCountdown | src/features/pomodoro/hooks/usePomodoroTimer.ts:99-114 | While time remains, a tick takes exactly one second off and keeps the status and the count. It plays the low alarm exactly when the new value is at or below the threshold, and never the completion alarm. In work the new list is the old one with only pomodoro `cycleCount` replaced: same id, the colour of the new time left. In break it leaves the list alone. |
| TimerSpec.TickEndsWork | src/features/pomodoro/hooks/usePomodoroTimer.ts:116-132 | At the end of work, a tick plays the completion alarm, and adds one to the count. The new list is the old one with only pomodoro `cycleCount` replaced, by the same id with colour (255, 32, 0). It starts a long break exactly when the new count is a multiple of the cycle length, otherwise a short one. The status text says which. |
| TimerSpec.TickEndsBreak | src/features/pomodoro/hooks/usePomodoroTimer.ts:116-136 | At the end of a break, a tick plays the completion alarm and appends pomodoro `cycleCount` with the base colour. It starts a full work interval with the count unchanged. |
| TimerSpec.BreakLabel | src/features/pomodoro/hooks/usePomodoroTimer.ts:205-219 | In a break the label is "Long Break" or "Short Break". The time left is within the long or short break length that the label names. |
| TimerSpec.ShownButtons | src/features/pomodoro/hooks/usePomodoroTimer.ts:221-224 | Exactly one of start, pause and resume is shown. Reset is shown exactly when not idle. |
| TimerSpec.ButtonsMatchCommands | src/features/pomodoro/hooks/usePomodoroTimer.ts:170-224 | In every reachable state, each button is shown exactly when its command would change the state. |
| TimerSpec.ApplyKeepsInv | src/features/pomodoro/hooks/usePomodoroTimer.ts:94-203 | Every command and every tick preserves the invariant. |
| TimerSpec.RunKeepsInv | src/features/pomodoro/hooks/usePomodoroTimer.ts:94-203 | Every state reachable by any sequence of commands and ticks satisfies the invariant. |
| TimerSpec.CycleCountChangesOnlyOnWorkExpiry | src/features/pomodoro/hooks/usePomodoroTimer.ts:116-136 | The cycle count changes only on reset, or by exactly one on the tick that ends a work interval. The completion alarm plays exactly on a tick that ends an interval. |
| TimerHook.PomodoroTimer.constructor | src/features/pomodoro/hooks/usePomodoroTimer.ts:27-40 | The new timer is in the initial state with an empty alarm log, and satisfies the invariant. |
| TimerHook.PomodoroTimer.Tick | src/features/pomodoro/hooks/usePomodoroTimer.ts:94-137 | The fields become exactly the state of the `TimerSpec.Tick` step, and the step's alarms are appended to the log. The invariant is kept. |
| TimerHook.PomodoroTimer.CountDown | src/features/pomodoro/hooks/usePomodoroTimer.ts:99-114 | The countdown branch of the tick performs the spec step and logs its alarm. |
| TimerHook.PomodoroTimer.Expire | src/features/pomodoro/hooks/usePomodoroTimer.ts:116-136 | The expiry branch of the tick performs the spec step and logs the completion alarm. |
| TimerHook.PomodoroTimer.HandleStart | src/features/pomodoro/hooks/usePomodoroTimer.ts:170-177 | The fields become `TimerSpec.Start` of the old state. No alarm plays, and the invariant is kept. |
| TimerHook.PomodoroTimer.HandlePause | src/features/pomodoro/hooks/usePomodoroTimer.ts:179-184 | The fields become `TimerSpec.Pause` of the old state. No alarm plays, and the invariant is kept. |
| TimerHook.PomodoroTimer.HandleResume | src/features/pomodoro/hooks/usePomodoroTimer.ts:186-190 | The fields become `TimerSpec.Resume` of the old state. No alarm plays, and the invariant is kept. |
| TimerHook.PomodoroTimer.HandleReset | src/features/pomodoro/hooks/usePomodoroTimer.ts:192-203 | The fields become the initial state whatever they were. No alarm plays, and the invariant is kept. |
| PomodoroUtils.JsRemainder | src/features/pomodoro/utils/pomodoro.ts:5 | JavaScript's `%` agrees with the Euclidean remainder on non-negative numbers, and its magnitude is below the divisor. |
| PomodoroUtils.JsRemainderTruncates | src/features/pomodoro/utils/pomodoro.ts:5 | The remainder truncates toward zero. Negating the dividend negates the remainder. For a negative dividend it lies in (−d, 0] and differs from the dividend by a multiple of d. |
| PomodoroUtils.FormatSecondsAsClock | src/features/pomodoro/utils/pomodoro.ts:3-9 | The clock string always has a colon and at least five characters. `ClockRoundTrip`, `ClockShape` and the fixed readings below give its content. |
| PomodoroUtils.ClockParts | src/features/pomodoro/utils/pomodoro.ts:3-5 | For n ≥ 0, the minutes and seconds satisfy minutes·spm + seconds = n and 0 ≤ seconds < spm. |
| PomodoroUtils.ClockRoundTrip | src/features/pomodoro/utils/pomodoro.ts:3-9 | Reading the clock string back at its colon gives minutes and seconds that rebuild the total, with the seconds below one minute. |
| PomodoroUtils.ClockShape | src/features/pomodoro/utils/pomodoro.ts:6-8 | With at most 100 seconds per minute, and below 100 minutes, the clock is five characters: two digits, a colon, two digits. With more seconds per minute the seconds can need three digits (120 s/min and 110 s give "00:110"), so the bound is needed. |
| PomodoroUtils.PaddedDigits | src/features/pomodoro/utils/pomodoro.ts:6-8 | A padded number is all digits, reads back as the number, and is at least two characters. It is exactly two below 100. |
| PomodoroUtils.ZeroPaddedValue | src/features/pomodoro/utils/pomodoro.ts:6-8 | Left-padding a digit string with '0' keeps it all digits and keeps its value. |
| PomodoroUtils.ClockAtZero | src/features/pomodoro/utils/pomodoro.ts:3-9 | With 60 seconds per minute, 0 seconds is "00:00". |
| PomodoroUtils.ClockAtSixtyFive | src/features/pomodoro/utils/pomodoro.ts:3-9 | With 60 seconds per minute, 65 seconds is "01:05". |
| PomodoroUtils.ClockAtOneHour | src/features/pomodoro/utils/pomodoro.ts:3-9 | With 60 seconds per minute, 3600 seconds is "60:00": minutes never roll over into hours. |
| PomodoroUtils.ClockOfDigits | src/features/pomodoro/utils/pomodoro.ts:3-9 | With 60 seconds per minute, below ten minutes and with seconds below ten, the clock is '0', the minute digit, ':', '0', the second digit. |
| PomodoroUtils.ClockOfParts | src/features/pomodoro/utils/pomodoro.ts:3-8 | The clock of m·spm + s, for 0 ≤ s < spm, is m padded, a colon, and s padded. |
| PomodoroUtils.ColorForRemainingSeconds | src/features/pomodoro/utils/pomodoro.ts:11-30 | Blue is always 0, and with the whole interval left the colour is the base colour. `ColorInterpolates` pins each channel to the floor of its linear interpolation. `ColorEndpoints`, `ColorInRange` and `ColorMonotone` give the end values, the ranges and the direction of change. |
| PomodoroUtils.Render | src/features/pomodoro/utils/pomodoro.ts:32 | The rendering starts with "rgb(" and ends with ")". `RenderedColor` gives its exact form. |
| PomodoroUtils.ColorEndpoints | src/features/pomodoro/utils/pomodoro.ts:15-30 | With the whole interval left the colour is the base colour (64, 128, 0). With nothing left it is (255, 32, 0). |
| PomodoroUtils.ColorInRange | src/features/pomodoro/utils/pomodoro.ts:15-32 | For 0 ≤ remaining ≤ work, red is in [64, 255], green is in [32, 128] and blue is 0. |
| PomodoroUtils.ColorInterpolates | src/features/pomodoro/utils/pomodoro.ts:15-30 | Each of red and green is exactly the floor of its linear interpolation: w·(channel − start) ≤ (end − start)·(w − r) < w·(channel − start) + w, for every r. |
| PomodoroUtils.ColorMonotone | src/features/pomodoro/utils/pomodoro.ts:23-30 | As the time left decreases, red never decreases, green never increases and blue stays the same. |
| PomodoroUtils.RenderedColor | src/features/pomodoro/utils/pomodoro.ts:32 | Within an interval the colour renders as `rgb(R, G, 0)`, with R and G as unsigned decimal digits that read back as the channels. |
| PomodoroUtils.RenderNonNegative | src/features/pomodoro/utils/pomodoro.ts:32 | A colour with no negative channel renders as `rgb(` and the three channels' unsigned decimal digits, separated by ", ", then `)`. |
| PomodoroUtils.RenderBaseColor | src/features/pomodoro/hooks/usePomodoroTimer.ts:24 | The base colour `BasePomodoroColor` (the constant at line 24) renders as the literal `rgb(64, 128, 0)`. |
| Decimal.NatToString | src/features/pomodoro/utils/pomodoro.ts:6-7 | A natural number's decimal form is non-empty and all digits. It has one digit exactly below 10 and two exactly in [10, 100). It starts with '0' only for zero, so there are no leading zeros. |
| Decimal.IntToString | src/features/pomodoro/utils/pomodoro.ts:6-7 | `toString` of an integer is digits when non-negative, and a minus sign then digits when negative. There is never a leading zero: a non-negative form starts with '0' only for zero, and a negative one never has '0' right after the sign. |
| Decimal.IntToStringValue | src/features/pomodoro/utils/pomodoro.ts:6-7 | The digits of a non-negative integer read back as the integer. The digits after the minus sign of a negative one read back as its magnitude. |
| Decimal.PadStart | src/features/pomodoro/utils/pomodoro.ts:6-8 | `padStart` gives length max(length, width) and keeps the string as its suffix. Everything before it is the fill character, and nothing is ever cut off. |
| Decimal.DigitsValueOfNatToString | src/features/pomodoro/utils/pomodoro.ts:6-7 | The decimal form of n reads back as n. |
| Decimal.DigitsValueLeadingZeros | src/features/pomodoro/utils/pomodoro.ts:6-8 | Leading zeros do not change the value of a digit string. |
| Tones.ValidateToneParameters | scripts/generate-tones.mjs:7-17 | It passes exactly when frequency > 0, duration > 0 and 0 ≤ volume ≤ 1. Otherwise it reports the first failing check, in the order frequency, duration, volume. Each error is returned exactly in its own case. |
| Tones.ToneError.Message | scripts/generate-tones.mjs:9-16 | Each error message is non-empty and ends with a full stop. |
| Tones.UInt16LE | scripts/generate-tones.mjs:43 | Two bytes, low byte first: byte 0 plus 256 times byte 1 is the value. |
| Tones.UInt32LE | scripts/generate-tones.mjs:39 | Four bytes, least significant first: their weighted sum with weights 1, 2^8, 2^16 and 2^24 is the value. |
| Tones.Int16LE | scripts/generate-tones.mjs:53 | Two bytes whose unsigned little-endian value is the sample modulo 2^16, which is two's complement. |
| Tones.WavFile | scripts/generate-tones.mjs:33-57 | The file is 44 + 2n bytes for n samples. `FileChunks`, `WavHeaderFields`, `WavSampleAt` and `WavRoundTrip` give its content. |
| Tones.UInt16LERoundTrip | scripts/generate-tones.mjs:43 | Two bytes written by the unsigned 16-bit little-endian encoder read back as the value. |
| Tones.UInt32LERoundTrip | scripts/generate-tones.mjs:39 | Four bytes written by the unsigned 32-bit little-endian encoder read back as the value. |
| Tones.Int16LERoundTrip | scripts/generate-tones.mjs:53 | Two bytes written by the signed 16-bit two's-complement encoder read back as the value. |
| Tones.WavHeader | scripts/generate-tones.mjs:38-50 | The header is 44 bytes long. |
| Tones.SampleBytes | scripts/generate-tones.mjs:52-54 | The data chunk holds two bytes per sample. |
| Tones.Write | scripts/generate-tones.mjs:38 | Writing an ASCII string stores its bytes at the offset and leaves every other byte as it was. |
| Tones.WriteUInt32LE | scripts/generate-tones.mjs:39 | Stores the four little-endian bytes of the value at the offset and leaves every other byte as it was. |
| Tones.WriteUInt16LE | scripts/generate-tones.mjs:43 | Stores the two little-endian bytes of the value at the offset and leaves every other byte as it was. |
| Tones.WriteInt16LE | scripts/generate-tones.mjs:53 | Stores the two two's-complement little-endian bytes of the sample at the offset and leaves every other byte as it was. |
| Tones.WriteHeader | scripts/generate-tones.mjs:38-50 | After the thirteen fixed-offset writes, the first 44 bytes of the buffer are the WAV header. Every byte from 44 on is unchanged. |
| Tones.WriteRiffDescriptor | scripts/generate-tones.mjs:38-40 | Bytes 0 to 12 are "RIFF", 36 + data size, "WAVE". Every byte from 12 on is unchanged. |
| Tones.WriteFmtChunk | scripts/generate-tones.mjs:41-48 | Bytes 12 to 36 are the `fmt ` chunk, and the earlier bytes are kept. Every byte from 36 on is unchanged. |
| Tones.WriteFmtFormat | scripts/generate-tones.mjs:41-44 | Bytes 12 to 24 are "fmt ", size 16, format 1 and channels 1, and the earlier bytes are kept. Every byte from 24 on is unchanged. |
| Tones.WriteFmtRates | scripts/generate-tones.mjs:45-48 | Bytes 24 to 36 are the sample rate, the byte rate, the block align and the bits per sample, and the earlier bytes are kept. Every byte from 36 on is unchanged. |
| Tones.WriteDataChunkHeader | scripts/generate-tones.mjs:49-50 | Bytes 36 to 44 are "data" and the data size, and the earlier bytes are kept. Every byte from 44 on is unchanged. |
| Tones.BuildWavBuffer | scripts/generate-tones.mjs:33-57 | Returns a new buffer holding exactly the WAV file of the samples: the header, then each sample in order. |
| Tones.FileChunks | scripts/generate-tones.mjs:38-50 | The file starts with the RIFF descriptor, then the `fmt ` chunk, then the data chunk header. |
| Tones.WavTags | scripts/generate-tones.mjs:38-49 | "RIFF" is at offset 0, "WAVE" at 8, "fmt " at 12 and "data" at 36. |
| Tones.WavHeaderFields | scripts/generate-tones.mjs:39-50 | The header's little-endian fields read back as follows. Offset 4 holds 36 + 2n and offset 16 holds 16. Offsets 20 and 22 hold 1 and 1. Offset 24 holds 44100 and offset 28 holds 88200. Offset 32 holds 2, offset 34 holds 16 and offset 40 holds 2n. |
| Tones.FmtFields | scripts/generate-tones.mjs:42-48 | A `fmt ` chunk at any offset reads back as chunk size 16, format 1, one channel, 44100 Hz, 88200 bytes per second, blocks of 2 and 16 bits. |
| Tones.FmtChunkBytes | scripts/generate-tones.mjs:41-48 | The 24 bytes of the `fmt ` chunk, one by one. |
| Tones.SampleBytesAt | scripts/generate-tones.mjs:52-54 | Sample i occupies bytes 2i and 2i+1 of the data chunk. |
| Tones.WavSampleAt | scripts/generate-tones.mjs:52-54 | Sample i is stored at offsets 44 + 2i and 45 + 2i and reads back as itself. |
| Tones.DecodeSampleBytes | scripts/generate-tones.mjs:52-54 | Decoding count samples recovers the first count samples when each pair of bytes encodes its sample. |
| Tones.WavRoundTrip | scripts/generate-tones.mjs:52-54 | Decoding everything after the header recovers the sample sequence exactly. |
| Tones.HeaderIgnoresSampleValues | scripts/generate-tones.mjs:38-50 | The 44 header bytes depend only on the number of samples, not on their values. |
| Tones.DataByte | scripts/generate-tones.mjs:52-54 | Each byte after the header is one of the two bytes of sample (k − 44)/2. |
| Tones.SampleChangeIsLocal | scripts/generate-tones.mjs:38-54 | Changing one sample changes no byte outside that sample's own two bytes. |

## Left out

- The React plumbing (`useState`, `useRef`, the `useEffect` hooks that copy state into refs) is not modelled. Each command or tick is one atomic step on one state record. The model therefore does not capture a tick that reads a ref before React has copied a new value into it.
- The `setInterval`/`clearInterval` lifecycle is left out. A tick is an event that can arrive at any time, and one that arrives while idle or paused changes nothing.
- Audio loading and `play()` are browser media calls. Alarms are only entries, `Low` or `Completion`, in a ghost log.
- The component that renders the hook and the build configuration are consumers with no logic of the timer, and are not part of this model.
- `generateToneSamples` is not modelled. It synthesises the waveform with floating-point `Math.sin`; `BuildWavBuffer` takes any sequence of 16-bit samples instead.
- `saveTone`, `ensureDir` and the top-level script are not modelled. They are filesystem I/O.
- PomodoroUtils.ColorForRemainingSeconds uses exact rational arithmetic on integers, `floor(start + (end − start)·(work − remaining)/work)`. It does not model the floating-point ratio of the code, which may round differently where the exact value is an integer.
- PomodoroUtils.FormatSecondsAsClock and the colour take integer seconds only. Fractional or non-finite inputs are not modelled.
- TimerSpec.Pomodoro stores the colour as an `Rgb` triple. The code stores the rendered string; `PomodoroUtils.Render` gives that string, and `RenderedColor` and `RenderBaseColor` relate the two.
- The empty-string fallback at the end of the status text cannot be reached, because the status is always one of the four values. `TimerSpec.StatusText` has no such case.
- Tones.BuildWavBuffer: requires `36 + 2n < 2^32`. It does not model the `RangeError` that `writeUInt32LE` throws for a larger size.
- Tones.ValidateToneParameters: works on Dafny reals. A NaN argument, which passes every check in the code, is not modelled.
- `TimerHook.PomodoroTimer.Tick` delegates its two running branches to the `CountDown` and `Expire` methods. They keep the order of the code's assignments but not its single function body.
