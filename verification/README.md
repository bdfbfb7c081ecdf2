# Resource monitor: a verified model

A Dafny model of the cross-platform resource monitor: the console program that samples CPU, memory, disk and
network counters, turns differences of counters into percentages and rates, and paints a dashboard once an
interval. `dafny verify dfyconfig.toml` checks the whole project.

The monitor is a chain, and the model follows it from end to end.

- **Collectors** (`CpuDelta`, `Cpu`, `CpuMediant`, `Net`, `NetOrder`, `Disks`, `Collectors`, `Runs`, `Readings`, `Reorder`,
  `Samples`, `Processors`). The
  static previous-tick state of the three hosts is a class whose `Snapshot` method is proved equal to a step
  function on values; the three delta formulas are compared exactly; CPU time and network bytes are conserved over
  whole runs with failed reads and pauses; the fixed arrays refine a map and a first-of-each list. `Samples` and
  `Processors` say what a snapshot holds from the raw counters, mounts and interfaces alone.
- **Texts** (`Options`, `Decimal`, `Util`). The byte, rate and uptime formatters, each with a reader that takes the text back:
  round trips, order preservation, error bounds, lengths.
- **Frames** (`FrameBuffer`, `Frame`, `Paint`, `Escapes`, `FrameSize`, `FrameText`, `Leaks`, `Render`, `Rows`, `Figures`,
  `Layout`). The 24576-byte buffer
  with truncating appends is a class over an array. `Frame` says what the dashboard is, as lines of styles and
  texts; `Paint` is the painting code, loop by loop, proved to ask the buffer for exactly that. On top: nothing is ever
  cut, colour is removable and never leaks, live and one-shot output are the same lines, bars and widths, and readers that
  know the layout but no number take every figure of the snapshot back off its row.
- **Process** (`Terminals`, `Surroundings`, `Logs`, `Monitor`, `Accounts`, `Output`, `Sessions`). `main` as a method over arbitrary
  surroundings (`Env`): clock and counter readings, keys, sizes, and stop signals at any step. It returns the log of what
  it did. The log is proved to obey the program's promises for every environment, and the number of frames is proved
  equal to a function of the environment alone. `Sessions` ties the chain together: every frame of every process is
  complete, and what the frames show of an interface or a processor, before rounding for print, adds up to what its
  counter did since the second priming read.

Main results, in the order of their weight: `Monitor.RunProcess` with `Surroundings.LimitStops`; `Sessions.Session` with
`Accounts.ScreenBalances` and `Accounts.PrintBalances`; `Layout.OutputReads`; `Runs.NetLedger` and `Runs.CpuConserved` with
`Processors.GaugeShows`; `Samples.DisksArrive`;
`Paint.Paint` with `FrameSize.NoTruncation`, `Render.ColourIsRemovable` and `Render.NoColourLeak`; `Disks.DedupeRule`,
`NetOrder.OrderRule` and `Reorder.OrderNeverMatters`; `CpuDelta.FormulasAgree` and `CpuMediant.HeadlineIsMediant`;
`Util.BytesReadBack` and `Util.UptimeRoundTrip`.

How C is represented: a `char` stands for one byte; `u64` arithmetic wraps explicitly; `double` is an exact real;
`snprintf` into a buffer of n bytes is `Trunc`; a format string is the list of its literal runs and converted
arguments; what the operating system returns, failures included, is a method argument. Each host's file is followed
where they differ (the CPU code); the network loop is one model for all three, and on Windows the name in a row is
the one `copy_trunc` has already cut.

Where the code differs from its documentation the model follows the code:

- WORKINGS.md:143 says interfaces with zero counters are hidden unless every one is idle. The test adds the two
  counters in 64 bits, so a wrapped sum counts as idle: `Render.IdleRule` gives the exact exception.
- WORKINGS.md:182 says the headline is a percentage once primed. It is -1, shown as warming up, on a failed read and,
  on macOS, when no tick passed: `Runs.HeadlineMissing`.
- WORKINGS.md:196 says disks are deduplicated on the device name. Stored names are cut to 127 bytes and compared with
  whole ones: `Disks.DedupeRule` gives the exact condition.
- WORKINGS.md:161-171 derives the percentage from counters that only grow. When busy time does step back, Linux and
  macOS show 100 % and Windows shows 0 %: `CpuDelta.BusyBackwards`.
- WORKINGS.md:96 says closing the terminal runs the exit handler. Only SIGINT and SIGTERM are handled
  (src/monitor.c:175-176), so the model has no such exit.
- The comment at src/render.c:168 leaves room for a label and a percentage beside the bar. Memory and Swap rows need more:
  `Render.MeterRowRule` says exactly when they fit, and no row of kilobytes or more fits below 88 columns.
- A newline in the host name or in a file system type carries a colour into the next row: `Render.NoColourLeak` gives
  the exact condition.

## Model

| member | source | states |
|---|---|---|
| `Decimal.NatRoundTrip` | src/util.c:111-130 | The digits printed for a number denote that number. |
| `Decimal.IntRoundTrip` | src/render.c:208-215 | `%d` reads back for every integer, sign included. |
| `Decimal.NatTextLength` | src/util.c:111-130 | A number prints in at most k digits if and only if it is below 10^k. |
| `Decimal.FixedRoundTrip` | src/util.c:87-93 | Reading `%.0f`, `%.1f` or `%.2f` text gives exactly the rounded value. |
| `Decimal.RoundMonotone` | src/util.c:87-93 | printf rounding (to nearest, ties to even) never reverses an order. |
| `Decimal.RoundTies` | src/util.c:87-93 | Halfway between two integers printf takes the even one. |
| `Decimal.FixedTextLength` | src/util.c:87-93 | Length bound of a fixed-point text from the size of its number, either sign. |
| `Decimal.PaddedText` | src/render.c:292-323 | Field widths only add blanks, on the side the format says; a cut text fills its buffer up to the NUL. |
| `Util.ClampIntNearest` | src/util.c:57-66 | No value in the range is closer to the argument than the clamped one. |
| `Util.ClampPctNearest` | src/util.c:68-77 | No percentage in 0..100 is closer to the argument than the clamped one. |
| `Util.FormatScaled` | src/util.c:79-94 | The dividing loop stops at the one unit in which the number is below 1024 (or the last unit) and prints that number and unit, cut to the buffer. |
| `Util.FormatBytes` | src/util.c:96-100 | The byte text, cut to the buffer. |
| `Util.FormatRate` | src/util.c:102-109 | The rate text of the rate or of 0 when it is negative, cut to the buffer. |
| `Util.FormatUptime` | src/util.c:111-130 | The three-way uptime text, cut to the buffer. |
| `Util.ScaledRoundTrip` | src/util.c:79-94 | A reader that knows only the unit names takes every scaled text back to the rounded quantity it shows. |
| `Util.ScaledMonotone` | src/util.c:79-94 | The shown quantity keeps the order of its arguments across every unit switch and every switch between 0, 1 and 2 decimals. |
| `Util.ScaledError` | src/util.c:79-94 | From 1024 upward the shown quantity is within 0.5 %, below within one half; whole numbers below 1024 are exact. |
| `Util.BytesReadBack` | src/util.c:96-100 | Through a reader in which B, KB, MB, GB, TB and PB stand for 1 and the powers of 1024: for all 64-bit v <= w both texts read back, in order, exact below 1024 and within 0.5 % above. |
| `Util.RatesReadBack` | src/util.c:102-109 | The same for rates, B/s to TB/s, in order; within one half below 1024 and within 0.5 % above; a negative rate reads back as 0. |
| `Util.BytesRead` | src/util.c:96-100 | The same for a byte text at the start of a longer text: the amount and exactly what follows it. |
| `Util.RateRead` | src/util.c:102-109 | The same for a rate text. |
| `Util.BytesDecimals` | src/util.c:87-93 | Whole bytes have no decimals; below ten of a larger unit there are two, from ten on one. |
| `Util.BytesTextLength` | src/util.c:96-100 | No 64-bit byte count needs more than 11 characters, so no buffer here cuts it. |
| `Util.RateTextLength` | src/util.c:102-109 | A rate text fits the 64-byte buffer if and only if the rate in tenths of TB/s rounds below 10^57. |
| `Util.UptimeRoundTrip` | src/util.c:111-130 | The uptime text reads back, through a reader that rejects hours above 23 and minutes or seconds above 59, to the exact seconds below one hour and to whole minutes from there on. |
| `Util.UptimeForm` | src/util.c:111-130 | Minutes and seconds below an hour, hours and minutes below a day, days, hours and minutes from there on; days and hours lead only when they are not zero. |
| `Util.UptimeMonotone` | src/util.c:111-130 | A longer uptime never reads back as a shorter one. |
| `Util.UptimeTextLength` | src/util.c:111-130 | Every 64-bit uptime prints in at most 24 characters. |
| `FrameBuffer.FrameBuf.constructor` | src/render.c:389-392 | An empty buffer, NUL first, nothing requested yet. |
| `FrameBuffer.FrameBuf.Add` | src/render.c:36-52 | Afterwards the buffer is the NUL-terminated first FRAME_CAP - 1 bytes of everything requested so far, this text included. |
| `FrameBuffer.FrameBuf.AddCh` | src/render.c:54-61 | The same for one byte. |
| `FrameBuffer.FrameBuf.Printf` | src/render.c:63-82 | The same for formatted text, including the two ways vsnprintf can run out of room (section 7.19.6.12 of ISO C99). |
| `FrameBuffer.FrameBuf.Nl` | src/render.c:84-91 | The same for a line end, preceded by the erase sequence in live mode. |
| `FrameBuffer.FrameBuf.Flush` | src/render.c:379-385 | Writes exactly what is kept of everything requested. |
| `FrameBuffer.KeptTwice` | src/render.c:41-51 | Truncating after each append is the same as truncating once at the end. |
| `FrameBuffer.Play` | src/render.c:36-91 | Any sequence of the four append operations leaves the first 24575 bytes of the concatenation of all requests; no write leaves the array. |
| `Paint.Bar` | src/render.c:112-144 | The two glyph loops append exactly the segments of the specified bar. |
| `Paint.HLine` | src/render.c:154-164 | The rule loop appends exactly the rule line. |
| `Paint.Cpu` | src/render.c:219-230 | Appends the headline row, or the warm-up text when there is no headline. |
| `Paint.CoreStrip` | src/render.c:235-251 | The strip loop with its column counter appends exactly the rows of the chunked core list, `per_line` cores to a row, gaps inside rows only. |
| `Paint.Cores` | src/render.c:232-251 | The strip appears exactly when primed and not empty, with the row length the width calls for. |
| `Paint.Meter` | src/render.c:255-261 | Appends one memory or swap row. |
| `Paint.MemoryBlock` | src/render.c:252-277 | Appends the memory and swap rows with their blank lines. |
| `Paint.Disk` | src/render.c:286-297 | Appends one disk row, its mount cut to 27 bytes. |
| `Paint.Disks` | src/render.c:279-297 | Appends one row a disk in order, or the placeholder when there is none. |
| `Paint.AnyNetBytes` | src/render.c:302-309 | The search loop decides whether some interface has a non-zero 64-bit sum of counters. |
| `Paint.Nets` | src/render.c:301-333 | The two loops and the `shown` counter append the interface rows that are not hidden, or the placeholder. |
| `Paint.Battery` | src/render.c:349-368 | Appends the battery row in every combination, or nothing. |
| `Paint.Header` | src/render.c:198-230 | Appends the first four rows: title with its pause mark, host with its fall-backs, rule, headline. |
| `Paint.FooterBlock` | src/render.c:334-376 | Appends the rows from the facts, in either form, to the key help, interval and clock. |
| `Paint.Paint` | src/render.c:179-377 | The whole of paint asks the buffer for exactly the pieces of the frame specified as a list of lines of styles and texts. |
| `Paint.ChunksSnoc` | src/render.c:241-250 | Closing a row of the strip extends the chunked list by that row. |
| `Escapes.LineEffect` | src/render.c:93-110 | A terminal reader that removes SGR sequences (section 8.3.117 of ECMA-48) turns a coloured line into the plain one; its style state after the line, or its failure at a newline met with a style on, is that of the line read segment by segment. |
| `Escapes.FrameEffect` | src/render.c:93-164 | The same for whole frames, whatever follows: the reader gets through with the style off if and only if every line is tidy. |
| `Escapes.VisibleLine` | src/render.c:93-110 | Coloured or not, a line takes the same number of character cells. |
| `FrameText.FrameGood` | src/render.c:179-377 | Every line of every frame is free of any control byte its text fields are free of, and ends with the style off. |
| `Leaks.FrameTidy` | src/render.c:179-377 | Every line of a frame is tidy if and only if neither the host name nor a file system type holds a newline: no other text is printed with a style on. |
| `FrameSize.NoTruncation` | src/render.c:28 | For every snapshot within the limits of snapshot.h and every width in 60..240, frame plus home plus closing erase is at most 23415 bytes, so nothing is ever cut. |
| `Render.RenderDashboard` | src/render.c:387-398 | One write of what the buffer keeps; for legal input that is cursor home, every line with erase-to-end and newline, then the closing erase, byte for byte. |
| `Render.RenderOnce` | src/render.c:400-408 | One write; for legal input that is every line of the same list with a newline. |
| `Render.ColourIsRemovable` | src/render.c:107-110 | For every snapshot without ESC in its texts, live and one-shot: removing SGR from the colour frame that is asked for gives the colourless one byte for byte, and for legal input the same holds of what is printed. |
| `Render.NoColourLeak` | src/render.c:132-164 | For every snapshot without ESC in its texts: in a colour frame the style is back to default at every newline and at the end if and only if neither the host name nor a file system type holds a newline. |
| `Render.HostNameLeaks` | src/render.c:208-216 | A concrete host name, of two lines, that carries its colour into the next row. |
| `Render.LinesReadBack` | src/render.c:387-408 | Cutting the one-shot output at its newlines gives exactly the lines the live frame shows if and only if no line holds a newline of its own; a snapshot and clock without newlines in their texts never make one. |
| `Render.FilledIsNearest` | src/render.c:123-127 | The lit count of a bar is the whole number nearest to percentage times width over 100, the upper one of two equally near. |
| `Render.FilledMonotone` | src/render.c:123-127 | A higher percentage never lights fewer glyphs. |
| `Render.FilledEnds` | src/render.c:123-127 | 0 % lights nothing and 100 % lights the whole bar. |
| `Render.BarColour` | src/render.c:93-144 | A colour bar is the colourless bar between one escape and a reset; the escape is green below 60 %, yellow from 60 to below 85, red from 85, before and after clamping alike. |
| `Render.MeterNeverCools` | src/render.c:93-152 | More used of the same total never gets a less urgent colour. |
| `Render.UsedIsShare` | src/render.c:146-152 | A meter percentage times the total is 100 times the used amount; 0 of nothing, 100 when over-full. |
| `Render.UsedMonotone` | src/render.c:146-152 | More used never gives a lower percentage of the same total. |
| `Render.MeterNeverShrinks` | src/render.c:112-152 | For a fixed total the lit part never shrinks as the used amount grows. |
| `Render.BarText` | src/render.c:112-144 | A colourless bar is max(width, 4) glyphs between brackets, the lit ones (`#`, or the bytes E2 96 88) before the others (`.`, or E2 96 91). |
| `Render.StripPartition` | src/render.c:232-251 | The rows of the strip hold every core once, in order, in ceil(n / per_line) rows of which only the last may be short. |
| `Render.CoreRowFits` | src/render.c:233-250 | A row of cores as the collectors name them fits every width its row length is chosen for. |
| `Render.CoreStripFits` | src/render.c:232-251 | The whole strip of any number of cores: a partition, and no row wider than the terminal. |
| `Render.RuleWidth` | src/render.c:154-164 | A rule takes exactly `cols` cells. |
| `Render.CpuRowFits` | src/render.c:219-230 | The headline row fits at every width, warming up or not. |
| `Render.MeterRowRule` | src/render.c:258-260 | When a memory or swap row fits: if and only if its three figures take at most 14 characters up to 84 columns, and at most cols - 70 from there; always from 97 columns, and never below 88 once both amounts reach 1024. |
| `Render.UsualMemoryTooWide` | src/render.c:258-260 | Twelve gigabytes of sixteen overflow the default 80 columns. |
| `Render.MemoryRowTooWide` | src/render.c:258-260 | A concrete row that is wider than a 60-column terminal. |
| `Render.IdleRule` | src/render.c:302-317 | Interfaces with zero counters are hidden unless all are idle, except exactly when idle and active ones are mixed and every sum of counters wraps to 0. |
| `Render.IdleRuleBroken` | src/render.c:305 | A concrete list on which the wrapped sum shows an idle interface that the rule would hide. |
| `Rows.TitleText` | src/render.c:198-206 | The bytes of the title row, coloured or not, with the pause mark exactly when paused. |
| `Rows.HostText` | src/render.c:208-217 | The bytes of the host row with its two fall-backs. |
| `Rows.RuleText` | src/render.c:154-164 | The bytes of a rule: `cols` glyphs, dim. |
| `Rows.CpuText` | src/render.c:219-230 | The bytes of the headline row: bar of the headline, its width by the width class, and the percentage; the warm-up text when unprimed or negative. |
| `Rows.MeterText` | src/render.c:252-277 | The bytes of a memory or swap row: the bar shows the used share, then used before total, then the percentage. |
| `Rows.DiskText` | src/render.c:286-297 | The bytes of a disk row: mount cut and padded, bar of the used share, used before total, type. |
| `Rows.NetText` | src/render.c:318-323 | The bytes of an interface row: received rate behind the cyan down arrow, sent rate behind the yellow up arrow. |
| `Rows.FactsText` | src/render.c:334-347 | The bytes of the row of loads, processes and uptime, in either form. |
| `Rows.BatteryText` | src/render.c:349-368 | The bytes of the battery row in every combination. |
| `Rows.FooterText` | src/render.c:370-376 | The bytes of the key help, interval and clock. |
| `Figures.NetRowReads` | src/render.c:318-323 | A reader that looks for the two arrows finds the received rate behind the down arrow and the sent rate behind the up arrow, within the error of the rate texts. |
| `Figures.MeterRowReads` | src/render.c:252-277 | A reader gets used, total and the used share, in this order, off a memory or swap row. |
| `Figures.DiskRowReads` | src/render.c:286-297 | A reader gets mount, used, total and type, in this order, off a disk row. |
| `Figures.FactsRowReads` | src/render.c:334-347 | A reader gets the loads of one, five and fifteen minutes in this order, the number of processes exactly and the uptime in whole units. |
| `Figures.BatteryRowReads` | src/render.c:349-368 | A reader gets the percentage exactly, or that it is unknown, and the power state. |
| `Figures.CpuRowReads` | src/render.c:219-230 | A reader gets the headline within 0.05, and none while warming up. |
| `Figures.CoreRowReads` | src/render.c:235-251 | A reader gets the name and percentage of every processor of a row, in order. |
| `Figures.FooterRowReads` | src/render.c:370-376 | A reader gets the interval within 0.05 and the clock. |
| `Layout.StripIs` | src/render.c:232-251 | The strip has ceil(n / per) rows, per being 2, 3 or 4 below 80, below 100 and from 100 columns; row k holds the processors from k times per on. |
| `Layout.NetsAre` | src/render.c:301-333 | The interfaces with a row, in order: those with a non-zero counter, and all when every sum of counters is 0 modulo 2^64; one placeholder when there are none. |
| `Layout.AnyFrameReads` | src/render.c:179-377 | For every snapshot without ESC in its texts, every width and either colour setting: once the SGR sequences are removed, every figure of the snapshot is read back off its own row, and the rows stand where the frame says. |
| `Layout.OutputReads` | src/render.c:387-408 | The same from the bytes both entry points print: the one-shot output cut at its newlines, and the live output, which is the same rows with erases. |
| `CpuDelta.Wraps` | src/collect_linux.c:119-120 | The subtraction and addition used are arithmetic modulo 2^64. |
| `CpuDelta.BusyIncrement` | src/collect_linux.c:118-122 | The unsigned difference is the true busy increment, even when idle itself went down. |
| `CpuDelta.BusyBackwards` | src/collect_linux.c:118-122 | When busy time goes backwards Linux and macOS show 100 and Windows shows 0. |
| `CpuDelta.FormulasAgree` | src/collect_win.c:151-165 | The unguarded and the guarded formula give the same percentage if and only if there is nothing to compare yet or busy time did not go backwards. |
| `CpuDelta.UsageIsShare` | src/collect_linux.c:115-127 | Usage times elapsed ticks is 100 times the busy ticks, under either formula. |
| `CpuDelta.PercentOfPart` | src/collect_linux.c:121 | The clamped ratio is exact for a part of the whole and 100 for anything more. |
| `CpuDelta.ApplyCpuDelta` | src/collect_linux.c:115-127 | Usage and stored counters of one Linux sample. |
| `CpuDelta.ApplyDelta` | src/collect_win.c:151-165 | Usage and stored counters of one Windows sample. |
| `Cpu.LinuxTicksMean` | src/collect_linux.c:166-169 | Idle is idle plus iowait; busy is user, nice, system, irq, softirq and steal, as long as the sums fit 64 bits. |
| `Cpu.DarwinTicksMean` | src/collect_darwin.c:139-143 | Busy is user, system and nice. |
| `Cpu.WindowsTicksMean` | src/collect_win.c:179-182 | Kernel time includes idle time: busy is kernel less idle, plus user. |
| `Cpu.CpuCounters.Reset` | src/collect_linux.c:33-36 | All stored counters become zero. |
| `Cpu.CpuCounters.PutUnix` | src/collect_linux.c:189-193 | One processor: counters stored in its slot, the others kept, its sample appended. |
| `Cpu.CpuCounters.PutWindows` | src/collect_win.c:210-215 | The same with the Windows formula. |
| `Cpu.CpuCounters.FillLinux` | src/collect_linux.c:129-208 | The line loop yields the specified new counters and samples: first 128 readable processors, last readable aggregate, headline only when primed; a failed read changes nothing. |
| `Cpu.CpuCounters.DarwinCore` | src/collect_darwin.c:138-163 | One turn of the core loop: slot, sample and both sums advance together. |
| `Cpu.CpuCounters.DarwinCores` | src/collect_darwin.c:138-163 | The core loop stores and samples every processor and returns the 64-bit sums. |
| `Cpu.CpuCounters.FillDarwin` | src/collect_darwin.c:111-180 | New counters and samples of macOS, with no headline unless the summed total advanced. |
| `Cpu.CpuCounters.WindowsCores` | src/collect_win.c:204-216 | The per-processor loop stores and samples the entries it got. |
| `Cpu.CpuCounters.FillWindows` | src/collect_win.c:167-226 | New counters and samples of Windows, with the one-bar fall-back. |
| `CpuMediant.Mediant` | src/collect_darwin.c:138-174 | Among processors whose counters grew, two bound the ratio of the summed deltas (induction over the core loop). |
| `CpuMediant.SumsDoNotWrap` | src/collect_darwin.c:161-162 | The sums over at most 128 processors of 32-bit counters never wrap. |
| `CpuMediant.HeadlineIsMediant` | src/collect_darwin.c:138-174 | The macOS headline lies between the usages shown for two of the cores of the same snapshot. |
| `Processors.MeteredIsRead` | src/collect_linux.c:129-208 | What a read counts for the headline or a processor, told from the raw counters (last readable aggregate line, k-th readable processor line, Mach loads and their sums over 128, Windows times), is what the collector takes. |
| `Processors.GaugeShows` | src/collect_linux.c:115-208 | The percentage of a snapshot for the headline and every processor of all three hosts, as a formula of busy and idle time now and when last listed; the name of a processor is its number. |
| `Processors.GaugeIsShare` | src/collect_linux.c:115-208 | Usage times the time that passed is 100 times the busy time that passed, from the raw counters of any host, however many reads in between did not list the gauge. |
| `Processors.LinuxHeadline` | src/collect_linux.c:154-207 | For two reads in a row with growing counters: the headline times the growth of the eight fields is 100 times the growth of user, nice, system, irq, softirq and steal; iowait is not busy. |
| `Processors.NoHeadline` | src/collect_linux.c:197-207 | The headline is -1 in the first snapshot and whenever the read has no readable total. |
| `Processors.CoresArrive` | src/collect_win.c:194-226 | How many processors a snapshot shows and counts on each host, from what was read, and that they are numbered from 0. |
| `Net.NetTable.Clear` | src/collect_linux.c:37 | The table becomes empty. |
| `Net.NetTable.Search` | src/collect_linux.c:365-370 | The linear search returns the first slot with the name, or -1. |
| `Net.NetTable.Sample` | src/collect_linux.c:357-381 | The row of one interface: counters as read, rates only when live, the clock advanced, the name is known and the counter did not go down. |
| `Net.NetTable.ReadRows` | src/collect_linux.c:335-383 | The read loop reports the first 12 usable interfaces in order. |
| `Net.NetTable.Store` | src/collect_linux.c:386-391 | The three parallel arrays become the rows just reported. |
| `Net.NetTable.FillNet` | src/collect_linux.c:318-392 | A failed read reports nothing and keeps the table; a good one reports against the old table and replaces it. |
| `Samples.InterfacesArrive` | src/collect_linux.c:335-383 | From the interface list alone: the first 12 usable interfaces in order, names cut to 63 bytes, each with its own counters; none when the read fails. |
| `Samples.RatesArrive` | src/collect_linux.c:364-381 | The rate of an interface is the growth of its own counter since the last read that succeeded over the time since the snapshot before, received and sent apart, and 0 when the counter fell or no time passed. |
| `Samples.NewHasNoRate` | src/collect_linux.c:371-381 | An interface the last successful read did not report has rate 0. |
| `NetOrder.SlotIsLookup` | src/collect_linux.c:365-370 | The parallel arrays stand for a map in which the first slot of a name wins. |
| `NetOrder.RowRefinesMap` | src/collect_linux.c:357-381 | The row found by searching the arrays is the row computed from the map. |
| `NetOrder.SameRows` | src/collect_linux.c:335-383 | At most 12 usable interfaces give the same rows in any order. |
| `NetOrder.TableIsReport` | src/collect_linux.c:386-391 | After a good read the table is exactly what was reported, each accepted interface once. |
| `NetOrder.ReorderedStep` | src/collect_linux.c:335-391 | From arrays that stand for the same map, reads that differ in order give the same rows and arrays that again stand for the same map. |
| `NetOrder.ThirteenthCounts` | src/collect_linux.c:336-337 | With more than 12, exchanging the first and the 13th changes what is reported. |
| `NetOrder.OrderRule` | src/collect_linux.c:336-337 | For distinct short names the order of the interfaces is irrelevant if and only if at most 12 are usable. |
| `Reorder.OrderNeverMatters` | src/collect_linux.c:485-515 | Two runs that differ only in how the host orders its interfaces at each tick make equal snapshots up to the order of their rows. |
| `Disks.SeenBefore` | src/collect_linux.c:284-292 | The inner loop decides whether some stored, possibly cut, device name equals the new one. |
| `Disks.FillDisks` | src/collect_linux.c:258-316 | The mount loop reports the first 8 mounts that qualify and are not taken for a device already seen; an unreadable table reports nothing. |
| `Disks.DiskAddsUp` | src/collect_linux.c:296-298 | Used plus free is the total as long as the products fit 64 bits. |
| `Disks.OnlyQualifyingMatter` | src/collect_linux.c:293-302 | Filtered mounts, failed statvfs calls and empty volumes never influence what is reported. |
| `Disks.SeenIsExact` | src/collect_linux.c:284-312 | The duplicate test is right for a device name if and only if the name is not confusable with a stored, cut one. |
| `Disks.DedupeRule` | src/collect_linux.c:258-316 | The loop reports the first 8 of "first mount of every device" if and only if no name met before the table is full is confusable. |
| `Disks.ShortNamesAreSafe` | src/collect_linux.c:258-316 | It always does when device names are shorter than 128. |
| `Disks.LongNameTwice` | src/collect_linux.c:309-312 | One device with a name of 128 bytes or more is reported twice. |
| `Samples.DisksArrive` | src/collect_linux.c:258-316 | From the mount table alone: with device names shorter than 128, the disks are the first of each device among the mounts that are listed, have a statvfs result and a non-empty volume, in order, up to 8; mount and type cut to their fields, total and used as products modulo 2^64; none when the table cannot be read. |
| `Collectors.Collector.constructor` | src/collect_linux.c:19-26 | The zeroed statics of a fresh process. |
| `Collectors.Collector.Init` | src/collect_linux.c:33-41 | collect_init from any state gives the initial state. |
| `Collectors.Collector.FillCpu` | src/collect_linux.c:503 | Dispatch to the linked host: new counters and samples as specified. |
| `Collectors.Collector.Snapshot` | src/collect_linux.c:485-515 | collect_snapshot: new state and snapshot are those of the specified step, for all three hosts. |
| `Samples.FactsArrive` | src/collect_linux.c:485-515 | The host facts arrive unchanged, and the interval is the time since the snapshot before, or 0 on the first and when the clock did not advance. |
| `Runs.PrimedExactlyAfterFirst` | src/collect_linux.c:496-513 | From collect_init on, snapshot k is primed if and only if k > 0; the first shows no usage, and rates are 0 whenever unprimed or no time has passed. |
| `Runs.HeadlineMissing` | src/collect_darwin.c:165-172 | When a snapshot has no headline: exactly when unprimed, the read failed, or (macOS) the summed total did not advance; otherwise it is a percentage. |
| `Runs.CpuTick` | src/collect_linux.c:115-127 | On every host one primed snapshot accounts for the busy ticks since the last, for the headline and for every processor, failed reads and missing processors included. |
| `Runs.CpuConserved` | src/collect_linux.c:189-207 | Over any run whose idle and busy ticks never decrease, usage times elapsed ticks adds up to 100 times last busy less first busy, for the headline and for every processor. |
| `Runs.SplittingDoesNotMatter` | src/monitor.c:235-239 | Two runs between the same counters report the same total, however they are cut into intervals or paused. |
| `Runs.NetLedger` | src/collect_linux.c:364-391 | For every interface that is in each successful read, whatever its counter does: bytes reported (rate times interval, summed), bytes counted while the clock stood still and what resets and wraps lost add up to the advance of its counter, through failed reads and pauses. |
| `Runs.NetConserved` | src/collect_linux.c:364-391 | For a counter that never goes down, reported bytes equal last less first counter if and only if nothing was counted while the clock stood still. |
| `Runs.NetConservedFromStart` | src/collect_win.c:340-369 | From collect_init on with a positive advancing clock, reported bytes are never less than last less first counter, and equal to it if and only if the counter never goes down: a reset or a wrap shows as rate 0. |
| `Readings.SteadyGrows` | src/collect_linux.c:386-391 | An interface whose readings never go down never goes down against the stored table, and what the table keeps is always one of its readings. |
| `Readings.BytesConserved` | src/collect_linux.c:364-391 | With steady readings and an advancing clock, reported bytes equal the last reading less the first. |
| `Readings.SteadyCpuGrows` | src/collect_linux.c:115-127 | The same for the counters of the headline and of every processor, on every host. |
| `Readings.UsageConserved` | src/collect_linux.c:189-207 | From collect_init on, usage times elapsed ticks over all snapshots but the unprimed first adds up to 100 times the busy ticks read since. |
| `Readings.BooksBalance` | src/collect_linux.c:485-515 | For interfaces, headline and processors alike: with steady counters, what the snapshots from any number on report is what the counters did since the read before. |
| `Readings.MovedTraffic` | src/collect_linux.c:357-391 | For traffic that is the last counter less the last one read before. |
| `Terminals.Terminal.constructor` | src/term.c:21-34 | Nothing initialised, nothing saved. |
| `Terminals.Terminal.Init` | src/term.c:50-100 | Once only: saves the mode if it can be read and makes it raw (no echo, no line mode, VMIN 0, VTIME 0), enters the alternate screen, registers the exit handler. |
| `Terminals.Terminal.Restore` | src/term.c:102-126 | Leaves the screen and puts the saved mode back, once; a second call does nothing. |
| `Terminals.Terminal.Exit` | src/term.c:36-39 | The registered handler at exit undoes what is still to undo. |
| `Terminals.Columns` | src/term.c:182-203 | Widths from 60 to 240 are taken as they are, an unknown size is 80, a smaller one becomes 60 and a larger one 240. |
| `Logs.IntervalNearest` | src/monitor.c:95-105 | No interval in 0.2..60 is closer to the one asked for than the one used. |
| `Surroundings.PausedIsParity` | src/monitor.c:242-251 | Paused means an odd number of space bars so far. |
| `Surroundings.UndisturbedMeans` | src/monitor.c:227-252 | Nothing disturbs the loop if and only if no signal came while priming and no turn so far has a signal, q, Q or Ctrl-C, or a failed read while not paused. |
| `Surroundings.LimitStops` | src/monitor.c:227-252 | A signal, a quit key or an unpaused failed read in a turn allows at most the frame of that turn; one before the loop allows none. |
| `Surroundings.LimitHasReason` | src/monitor.c:227-252 | The number of frames allowed stops short only for a signal, a quit key or a failed read at the very turn it stops at. |
| `Logs.PhaseMeans` | src/monitor.c:225-254 | A log in phase order has each screen switch at most once and all frames between them. |
| `Monitor.Program.constructor` | src/monitor.c:161-164 | A fresh collector and terminal; nothing has happened yet. |
| `Monitor.Program.OnStop` | src/monitor.c:27-31 | The handler, run where the surroundings put a signal, sets the flag for good and does nothing else. |
| `Monitor.Program.Collect` | src/monitor.c:236 | One snapshot continues the collector run of the log and is primed unless it is the first. |
| `Monitor.Program.Draw` | src/monitor.c:240 | One frame of the current snapshot, options and clock; counted after a signal only if the flag was set. |
| `Monitor.Program.Press` | src/monitor.c:242-251 | A space flips `paused`, so `paused` stays the parity of the spaces; other keys change nothing. |
| `Monitor.Program.Refresh` | src/monitor.c:229-239 | The part of a turn before the frame: a new snapshot if and only if not paused. |
| `Monitor.Program.Show` | src/monitor.c:240-242 | The frame of a turn and the poll: one more frame, and a frame follows a signal only with the flag set. |
| `Monitor.Program.Redraw` | src/monitor.c:229-242 | Snapshot, frame and poll of a turn. |
| `Monitor.Program.Obey` | src/monitor.c:246-251 | The key of a turn: the loop goes on unless it is q, Q or Ctrl-C as a byte. |
| `Monitor.Program.TakeTurn` | src/monitor.c:227-252 | A turn goes on exactly when the surroundings let it, and otherwise ends the loop, with its frame or without, for a signal, a quit key or the failed read of that very turn. |
| `Monitor.Program.Pass` | src/monitor.c:227-252 | The test of the flag at the head of a turn, then the turn: goes on exactly when no earlier signal and nothing in the turn stops it. |
| `Monitor.Program.Loop` | src/monitor.c:227-252 | For any number of turns and any arrival of signals: left exactly when something disturbs it, after exactly as many frames as the surroundings allow. |
| `Monitor.Program.Prime` | src/monitor.c:185-196 | Two snapshots, the second primed, nothing drawn. |
| `Monitor.Program.EnterLive` | src/monitor.c:225 | From priming to the head of the loop, on the alternate screen. |
| `Monitor.Program.LeaveLive` | src/monitor.c:254-256 | The screen is left once and the terminal mode is the original one, the exit handler included. |
| `Monitor.RunProcess` | src/monitor.c:107-257 | Every process, in any surroundings. With the one-shot flag, without a terminal or after a failed priming read: no alternate screen, no frame, exit, and exactly one print, of the second snapshot, if both reads succeed. Otherwise: no print, alternate screen entered once and left once, all frames between, and exactly as many frames as the signals, keys and failed reads of the surroundings allow; every event only where its surroundings put it, so every turn is read at most once, drawn once and polled once with its own size, clock and key; at most one frame after a stop signal and none after a quit key; every frame from the latest primed snapshot, taken for it exactly when not paused, and paused by the parity of spaces; no snapshot left undrawn; still running exactly when nothing disturbed it. Original terminal mode at every exit. |
| `Accounts.LogIsRun` | src/monitor.c:185-252 | The snapshots of a process are those of one collector run from collect_init, all primed but the first. |
| `Accounts.LogPicks` | src/monitor.c:185-252 | A process makes its reads in the order the surroundings have them, each at most once and only those that succeed; pausing skips some. |
| `Accounts.SnapshotsBalance` | src/monitor.c:185-252 | If clock and counters advance in the surroundings, what the snapshots of a process report is what the counters did, however it was paused and whichever reads failed. |
| `Accounts.TakenIsDrawn` | src/monitor.c:227-252 | What the snapshots after priming report is what the unpaused frames show, plus a snapshot taken and not yet drawn; paused frames add nothing. |
| `Accounts.ScreenBalances` | src/monitor.c:225-252 | On the screen of a live process: what the unpaused frames show adds up to what the counters did since the second priming read, which is never drawn itself. |
| `Accounts.PrintBalances` | src/monitor.c:185-223 | A one-shot print shows what the counters did between the two reads. |
| `Output.LogIsWritten` | src/monitor.c:204-254 | A live process writes the enter sequence, its frames and, once over, the leave sequence, byte for byte; any other writes neither sequence and nothing before its print. |
| `Output.PrintIsSecond` | src/monitor.c:185-223 | The snapshot behind a one-shot print is the second one of a collector that makes the two priming reads. |
| `Output.FramesShow` | src/monitor.c:227-252 | Every frame has the flags, width and clock of its own turn; it is paused after an odd number of space bars; not paused it shows the snapshot of that turn's own read, paused the one last drawn. |
| `Sessions.SnapshotIsLegal` | src/snapshot.h:10-74 | Every snapshot any collector makes from host facts that fit their fields is within the limits the renderer relies on. |
| `Sessions.FramesAreWhole` | src/render.c:387-398 | Every frame of a log whose reads are legal is complete, uncut, of a primed snapshot, every figure of which is read back off its row, and its core strip fits the terminal. |
| `Sessions.LegalIsWhole` | src/render.c:387-398 | The same from the surroundings: if all they offer fits the snapshot fields, every frame of every process is complete. |
| `Sessions.Session` | src/monitor.c:107-257 | A whole process, from counters to terminal. With the one-shot flag, without a terminal or after a failed priming read it exits and writes at most one complete print, of the second snapshot. Otherwise it enters the screen, writes complete frames, one a turn, and leaves the screen at exit. Every frame shows its own turn and every figure is read back off its row; for every interface, headline and processor whose counters advance, what the frames or the print show adds up to what was counted. |

## Left out

- Floating-point rounding, NaN and infinities: `double` is an exact real, and the interval text is taken as a real number already (src/monitor.c:97 lets NaN through the clamp).
- Operating-system calls: `/proc`, Mach, sysctl, Win32, `getifaddrs`, `statvfs`, clocks and key polling; their results are inputs, so the prefix filters appear only as the `usable` and `listed` flags.
- The `sscanf` parsing of `/proc` lines: a line arrives as its kind and its parsed counters.
- Identity, memory, swap, load, uptime, process count and battery collection: passed through as `Facts`, straight-line code.
- Flags, usage text, NO_COLOR, the re-exec in a terminal emulator, messages on stderr, `util_sleep_ms` and exit code 2: process plumbing.
- The Windows drive loop (src/collect_win.c:258-287): it has no device to deduplicate and adds only an easy loop.
- The Windows console half of src/term.c: the model is the POSIX half, with `tcsetattr` taken to succeed.
- Signals other than SIGINT and SIGTERM, and signals inside a library call: a signal arrives between steps, and the writes of a frame and of a screen switch are each one step.
- `g_cpu_n` of macOS: stored and never read.
- FrameBuffer.FrameBuf.Add: does not model the NULL argument test, because no caller passes NULL.
- CpuDelta.ApplyCpuDelta: returns the new counters instead of writing them in place; the caller stores them in the same slot.
- Cpu.CpuCounters.FillLinux: the output struct is returned as a value instead of being filled in place, as in the other collectors.
- Collectors.Collector.Snapshot: the NULL argument test and its error return are not modelled; a failed collection is the `collects` flag of a turn.
- Sessions.SnapshotIsLegal: the sizes of the host facts are a hypothesis, because the collection of identity, load and battery facts is not part of this model.
- Layout.AnyFrameReads: texts that hold an ESC byte are excluded, because no reader can tell them from the program's own sequences.
- Figures.NetRowReads: a rate whose text does not fit its 64-byte buffer is not read back; `Util.RateTextLength` says which do.
- Figures.CoreRowReads: processor names that are empty or hold a blank are excluded; the collectors give numbers (`Processors.CoresArrive`).
