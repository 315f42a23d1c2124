# Media date scripts, modelled in Dafny

A model of three Python scripts that fix the recorded dates of photos and videos in a
directory, written as pure functions with their properties proved.

- `multimedia/set_creation_date_from_filename.py`, the photo-and-video script. It reads a
  date from each file name: the 24-hour form `2018-04-07 17.50.41`, unless whitespace and
  then AM or PM, in any case, follows it somewhere (so " Amsterdam" after it counts, and
  "-PM" does not), and otherwise the 12-hour form `2025-12-31 at 11.08.35 PM`. It treats that
  date as Brasilia wall-clock time, converts it to UTC and writes it with exiftool in
  `%Y:%m:%d %H:%M:%S`.
- `multimedia/set_video_date_from_filename.py`, the video script. It reads the 24-hour form,
  optionally after a bracketed tag such as `[tag] `. It converts the date the same way and
  writes it with ffmpeg in `%Y-%m-%dT%H:%M:%SZ`.
- `multimedia/change_shot_date.py`, the shot-date script. It reads each file's recorded time:
  a photo's `DateTimeOriginal` from exiftool, or a video's `creation_time` line from
  ffmpeg's report. It moves that time 728 days and 23 hours forward and writes it back.

The modules follow the scripts' structure:

- `Text`: digits, whitespace, `int()`, zero padding and `str.strip()`.
- `Scan`: greedy character runs, fixed-width digit fields, and `re.search`'s leftmost rule.
- `Calendar`: `datetime` in years 1 to 9999, CPython's day ordinals, and
  `datetime + timedelta`.
- `Zone`: the local-to-UTC conversion and the "UTC-03:00" label.
- `Stamping`: the label and the UTC time text each filename script hands to its tool.
- `TimeFormat`: `strftime` and `strptime` for the three formats.
- `DatePattern`, `CreationName` and `VideoName`: the file-name extractors.
- `Media`: `Path.suffix` and the extension sets.
- `ShotDate`: the shot-date script's per-file pipeline.
- `Batch`, `FilenameBatch` and `ShotBatch`: the loops, their counters and the exit status.

Each concept has its module, and most have a `...Proofs` module beside them. Concrete file
names from the scripts' documentation are worked through in the two example files.

Everything outside the pure logic becomes a parameter:

- the zone's UTC offset at a local reading;
- the text a probing tool printed (`None` when the tool could not be started);
- whether copying and writing succeeded;
- whether exiftool is installed;
- the directory listing, as a sequence of entries in iteration order.

## Model

Paths are relative to the repository root.

| member | source | states |
|---|---|---|
| Text.Pad | multimedia/change_shot_date.py:144 | `%0<w>d` writes exactly `w` ASCII digits, and they read back with `int()` as the value |
| Text.PadValue | multimedia/change_shot_date.py:139-144 | a digit field that `strptime` reads and `strftime` writes again is unchanged: re-padding a digit string's value to its width gives the string back |
| Text.Strip | multimedia/change_shot_date.py:132 | `str.strip()` leaves a contiguous part of the text that starts after the leading whitespace, is followed only by whitespace, and has no whitespace at either end |
| Text.StripBlank | multimedia/change_shot_date.py:132-135 | the stripped text is empty exactly when the text is all whitespace |
| Scan.SpaceRunEnd | multimedia/set_creation_date_from_filename.py:40 | a greedy `\s+` stops at the first non-whitespace character or at the end of the text, and at no other place (with Scan.SpaceRunUnique) |
| Scan.Leftmost | multimedia/set_creation_date_from_filename.py:42 | `re.search` reports nothing exactly when the anchored pattern fails at every start; otherwise it reports the match at the smallest start where the pattern succeeds |
| Scan.LeftmostFirst | multimedia/set_creation_date_from_filename.py:42 | a match at `i` with no match before it is the one `re.search` reports |
| Calendar.MakeDateTimeAccepts | multimedia/set_creation_date_from_filename.py:55-58 | the `datetime` constructor accepts exactly the days that `fromordinal` reaches in 1..3652059, at a time on the clock, and keeps every field it is given |
| Calendar.Ordinal | multimedia/change_shot_date.py:96 | `toordinal()` numbers the valid dates 1 to 3652059, inside the range of days of the date's year |
| Calendar.FromOrdinal | multimedia/change_shot_date.py:96 | `fromordinal(n)` is a valid date whose ordinal is `n` |
| Calendar.FromOrdinalOfOrdinal | multimedia/change_shot_date.py:96 | `fromordinal` undoes `toordinal` on every valid date |
| Calendar.AddSeconds | multimedia/change_shot_date.py:96 | adding a `timedelta` gives the one valid `datetime` that many seconds later, with the microseconds kept; it overflows exactly when the sum leaves years 1-9999 |
| Calendar.AddSecondsInverse | multimedia/change_shot_date.py:96 | subtracting the added seconds gives the original time back |
| Calendar.AddSecondsAgreesWithCarries | multimedia/change_shot_date.py:95-96 | adding days and hours in seconds agrees with stepping the calendar day by day, carrying into the month and the year, leap days included; both overflow exactly past 9999-12-31 |
| Calendar.TimestampInjective | multimedia/change_shot_date.py:96 | a valid `datetime` is determined by its seconds since 0001-01-01 and its microseconds |
| Zone.ToUtc | multimedia/set_video_date_from_filename.py:74-77 | the UTC reading is the local reading minus the zone's offset, with the microseconds kept; the conversion fails exactly when the result leaves the `datetime` range |
| Zone.FromUtc | multimedia/set_video_date_from_filename.py:74-77 | the wall-clock reading is the UTC reading plus the offset, with the microseconds kept; the conversion fails exactly when the result leaves the `datetime` range |
| Zone.UtcRoundTrip | multimedia/set_video_date_from_filename.py:74-77 | converting a local reading to UTC and back with the same offset gives it back |
| Zone.LocalRoundTrip | multimedia/set_video_date_from_filename.py:74-77 | reading UTC in the zone and converting back gives the UTC reading back |
| Zone.ClockDigits | multimedia/set_video_date_from_filename.py:80 | `%z`'s digits are two each for hours and minutes, plus two for seconds only when there are seconds, and together they read back as the offset's size |
| Zone.LabelLayout | multimedia/set_video_date_from_filename.py:81 | `offset[:3]` and `offset[3:]` split a `%z` text after the sign and the hours |
| Zone.OffsetLabelReadsBack | multimedia/set_video_date_from_filename.py:80-81 | the label is "UTC", the sign, two hour digits, ":", two minute digits, and two second digits exactly when the offset has seconds; its digits read back as the offset |
| Zone.LabelWithoutSeconds | multimedia/set_video_date_from_filename.py:80-81 | an offset in whole minutes is labelled with its sign, hours and minutes only |
| Zone.BrasiliaLabel | multimedia/set_video_date_from_filename.py:80-81 | Brasilia standard time, three hours behind UTC, is labelled "UTC-03:00" |
| Zone.LocalMeanTimeLabel | multimedia/set_creation_date_from_filename.py:138-139 | the zone's local mean time, -3:06:28, is labelled "UTC-03:0628": the slice puts the seconds straight after the minutes |
| TimeFormat.ExifFormatSeparated | multimedia/change_shot_date.py:139 | in "%Y:%m:%d %H:%M:%S" every two-digit field is followed by a non-digit literal or a space, so `strptime`'s regular expression never backtracks into a field |
| TimeFormat.IsoFormatsSeparated | multimedia/change_shot_date.py:90-98 | the same holds for "%Y-%m-%dT%H:%M:%S.%fZ" and "%Y-%m-%dT%H:%M:%SZ" |
| TimeFormat.FieldWidth | multimedia/change_shot_date.py:139 | a two-digit directive takes at most two characters and never runs past the text |
| TimeFormat.Match | multimedia/change_shot_date.py:90-93 | the format's regular expression, anchored at `i`, ends at or after `i` and within the text |
| TimeFormat.Parse | multimedia/change_shot_date.py:90-93 | what `strptime` returns is always a valid `datetime` |
| TimeFormatProofs.MatchRender | multimedia/change_shot_date.py:90-93 | matching a rendered separated format stores exactly the fields the format names and stops at the end of the rendering |
| TimeFormatProofs.ParseRender | multimedia/change_shot_date.py:139-144 | `strptime` of a separated format reads `strftime` of the same format back: every field, and the microseconds only when the format has `%f` |
| TimeFormatProofs.ExifRoundTrip | multimedia/change_shot_date.py:139-144 | a time written in the EXIF format reads back to the second |
| TimeFormatProofs.FfmpegRoundTrip | multimedia/change_shot_date.py:90-93 | a time written in ffmpeg's format reads back to the microsecond |
| TimeFormatProofs.UtcRoundTrip | multimedia/change_shot_date.py:98 | a time written in the video output format reads back, under that format, to the second |
| TimeFormatProofs.RejectAfter | multimedia/change_shot_date.py:90-93 | text rendered from a format and one literal fails to parse under the same format followed by a different literal |
| TimeFormatProofs.UtcRejectedAsFfmpeg | multimedia/change_shot_date.py:90-98 | the script's own video output, which has no fraction, never parses under the format it reads videos with |
| DatePattern.Construct | multimedia/set_video_date_from_filename.py:45-52 | `datetime(...)` of the six groups is either a valid time with no microseconds or the `ValueError` on those same groups |
| DatePattern.ConstructFound | multimedia/set_creation_date_from_filename.py:61-64 | the groups give time `t` exactly when `t` is valid, has no microseconds, and its fields are the groups |
| DatePattern.SpacesAt | multimedia/set_creation_date_from_filename.py:40 | `\s+` matches at `i` exactly when `i` holds whitespace, and then it takes the whole run |
| DatePattern.Core24Exactly | multimedia/set_creation_date_from_filename.py:40 | the 24-hour pattern matches at `i` through whitespace ending at `j` exactly when the date is at `i`, whitespace fills the gap, and the clock is at `j`; the groups are the date's and the clock's digits |
| DatePattern.Search24 | multimedia/set_creation_date_from_filename.py:42 | the search finds nothing exactly when the pattern matches nowhere, and otherwise finds its leftmost match |
| DatePattern.Core24NeedsDigit | multimedia/set_creation_date_from_filename.py:40 | the pattern cannot start anywhere but on a digit |
| DatePattern.DateAtChars | multimedia/set_creation_date_from_filename.py:40 | "YYYY-MM-DD" yields the year, month and day that its digits spell |
| DatePattern.ClockAtChars | multimedia/set_creation_date_from_filename.py:40 | "HH.MM.SS" yields the hour, minute and second that its digits spell |
| CreationName.MeridiemAt | multimedia/set_creation_date_from_filename.py:50 | an AM or PM match needs whitespace where it starts |
| CreationName.MeridiemExactly | multimedia/set_creation_date_from_filename.py:50 | the whitespace-then-AM-or-PM search, ignoring case, matches AM (PM) at a position exactly when a whitespace run starts there and is followed by `a` (`p`) and then `m`, each in either case |
| CreationName.MeridiemShape | multimedia/set_creation_date_from_filename.py:50 | AM or PM needs a whitespace run and then an `a` or `p` in either case, with one more character after it |
| CreationName.HourWidth | multimedia/set_creation_date_from_filename.py:68 | the greedy `\d{1,2}` takes two digits when two are there, one when only one is, and none exactly when no digit starts there |
| CreationName.HourTable | multimedia/set_creation_date_from_filename.py:75-79 | for hours 1-12, 12 AM is midnight, 1-11 AM keep their hour, 12 PM is noon and 1-11 PM are 13-23; each result is written back by exactly the reading it came from |
| CreationName.HourTableOnto | multimedia/set_creation_date_from_filename.py:75-79 | every 24-hour hour comes from some 12-hour reading |
| CreationName.HoursOutsideTheClock | multimedia/set_creation_date_from_filename.py:73-84 | hour 0 with PM becomes noon, and hours above 12 with PM reach 25 or more, which `datetime` rejects |
| CreationName.TwelveHour | multimedia/set_creation_date_from_filename.py:68-84 | the 12-hour search finds no date exactly when its pattern matches nowhere; a date it finds is valid, with no microseconds |
| CreationName.TwelveHourExactly | multimedia/set_creation_date_from_filename.py:68 | date, whitespace, "at" in either case, whitespace, a one- or two-digit hour, ".MM.SS" and AM or PM in either case, laid out at a position, match there with the groups those digits spell |
| CreationName.TwelveHourIffLayout | multimedia/set_creation_date_from_filename.py:68 | the 12-hour pattern matches at a position exactly when such a layout starts there |
| CreationName.TwelveHourReading | multimedia/set_creation_date_from_filename.py:70-84 | the 12-hour date is the leftmost match's date, minute and second as written, with its hour converted: PM adds 12 to hours other than 12, and AM turns 12 into 0 |
| CreationName.TwelveHourShape | multimedia/set_creation_date_from_filename.py:68 | a 12-hour match needs the date's dashes, then whitespace, then "at" in either case |
| CreationName.Extract | multimedia/set_creation_date_from_filename.py:30-86 | a date the extractor returns is valid, with no microseconds |
| CreationName.TwentyFourHourReading | multimedia/set_creation_date_from_filename.py:47-64 | with no AM or PM anywhere after the first 24-hour match, the name's date is that match's groups |
| CreationName.MeridiemDefers | multimedia/set_creation_date_from_filename.py:47-52 | AM or PM anywhere after the first 24-hour match hands the name to the 12-hour pattern |
| CreationNameExamples.WhatsAppVideo | multimedia/set_creation_date_from_filename.py:66-84 | "WhatsApp Video 2025-12-31 at 11.08.35 PM.mp4" gives 2025-12-31 23:08:35 |
| CreationNameExamples.MeridiemWithoutAt | multimedia/set_creation_date_from_filename.py:45-70 | "2025-12-31 11.08.35 PM.mp4" gives no date: the 24-hour reading is dropped because PM follows it, and the 12-hour pattern needs "at" |
| VideoName.Extract | multimedia/set_video_date_from_filename.py:35-54 | the video extractor finds no date exactly when its tagged-or-bare pattern matches nowhere; a date it finds is valid, with no microseconds |
| VideoName.VideoReading | multimedia/set_video_date_from_filename.py:37-52 | the video script's date is the six groups of the leftmost match, as written |
| VideoName.NoDateIffNoPattern | multimedia/set_video_date_from_filename.py:35-40 | the video script finds no date exactly when the bare 24-hour pattern occurs nowhere: the tag changes which date is read, never whether one is |
| VideoName.TagFromHasDate | multimedia/set_video_date_from_filename.py:35 | a tagged match always ends on a bare 24-hour match further on |
| VideoName.UntaggedAt | multimedia/set_video_date_from_filename.py:35 | where no `[` can open a tag, the pattern is the bare 24-hour pattern |
| VideoName.TagSkips | multimedia/set_video_date_from_filename.py:35 | the lazy `.*?` of the tag grows past any character that is neither `]` nor a newline |
| CreationNameExamples.ShortHourAnyCase | multimedia/set_creation_date_from_filename.py:68-84 | "2025-12-31 AT 9.08.35 pm.jpg" gives 2025-12-31 21:08:35: "AT" and "pm" match in any case, and the hour may be one digit |
| CreationNameExamples.VideoIgnoresMeridiem | multimedia/set_video_date_from_filename.py:35-52 | the video script reads "2025-12-31 11.08.35 PM.mp4" as 11:08:35, since it has no AM/PM rule |
| TaggedNameExamples.VideoReadsAfterTag | multimedia/set_video_date_from_filename.py:35-54 | the video script reads "[ 2018-04-07 17.50.41 ] 2019-01-01 00.00.00" as 2019-01-01 00:00:00, the date after the tag |
| TaggedNameExamples.CreationReadsInsideTag | multimedia/set_creation_date_from_filename.py:40-58 | the photo-and-video script reads the same name as 2018-04-07 17:50:41, the date inside the tag |
| Media.LastDot | multimedia/set_creation_date_from_filename.py:232 | the position found holds a dot with no dot after it, and none is found only when the name has no dot |
| Media.Suffix | multimedia/set_creation_date_from_filename.py:232 | `Path.suffix` is empty, or is a dot and at least one character that end the name after something else |
| MediaProofs.SuffixIs | multimedia/set_creation_date_from_filename.py:232 | a dot-led extension with no other dot is a name's suffix exactly when the name ends with it and has something before it |
| MediaProofs.ExtensionsWellFormed | multimedia/set_creation_date_from_filename.py:24-25 | every video and photo extension is a dot followed by dot-free characters |
| MediaProofs.ShotPhotosWithoutHeic | multimedia/change_shot_date.py:37-38 | the shot-date script's photo set is the photo-and-video script's set less ".heic" and ".HEIC", and is well formed |
| MediaProofs.VideoByEnding | multimedia/set_creation_date_from_filename.py:230-233 | a file is taken as a video exactly when its name ends with a video extension after something else |
| MediaProofs.KindsDisjoint | multimedia/set_creation_date_from_filename.py:232-235 | no extension is both a video and a photo, so checking videos first decides nothing |
| MediaProofs.MixedCaseIgnored | multimedia/set_creation_date_from_filename.py:24-25 | the comparison is exact, so a ".Jpg" file is taken by neither script |
| MediaProofs.HiddenFileIgnored | multimedia/set_creation_date_from_filename.py:232 | a name that is only a dot and an extension, such as ".mp4", has no suffix and is never taken |
| MediaProofs.ShotAgainstCreation | multimedia/change_shot_date.py:37-47 | the shot-date script takes the same videos as the photo-and-video script, and takes that script's photos other than HEIC exactly when exiftool is installed |
| Media.MediaFiles | multimedia/set_creation_date_from_filename.py:229-235 | the classified list is no longer than the directory listing |
| MediaProofs.MediaFilesMembers | multimedia/set_creation_date_from_filename.py:229-235 | the list holds exactly the regular files that the classification gives a kind, each with that kind |
| Media.VideoFiles | multimedia/set_video_date_from_filename.py:145-146 | the video list is no longer than the directory listing |
| MediaProofs.VideoFilesMembers | multimedia/set_video_date_from_filename.py:145-146 | the video list holds exactly the regular files with a video extension |
| MediaProofs.VideoFilesAgree | multimedia/set_video_date_from_filename.py:145-146 | the video script's list is the photo-and-video script's videos, in the same order |
| ShotDate.Shifted | multimedia/change_shot_date.py:95-96 | adding 728 days and 23 hours lands exactly that many seconds later, with the microseconds kept, and agrees with stepping the calendar 728 days and carrying the 23 hours past midnight |
| ShotDate.LineEnd | multimedia/change_shot_date.py:82 | `.+` runs to the next newline or to the end of the report |
| ShotDate.GroupStart | multimedia/change_shot_date.py:82 | after `:\s*`, the group starts at the last place in the whitespace run where a non-newline character can start it; if there is none, there is no match |
| ShotDate.ValueAfterColon | multimedia/change_shot_date.py:82 | a value found after the colon is non-empty and has no newline |
| ShotDate.CreationTime | multimedia/change_shot_date.py:82-87 | `creation_time` is missing exactly when the pattern matches nowhere in the report |
| ShotDate.CreationTimeFirst | multimedia/change_shot_date.py:82-87 | the first `creation_time` line in the usual layout gives its value up to the end of the line, stripped |
| ShotDate.BlankValue | multimedia/change_shot_date.py:82 | a colon followed only by whitespace to the end of the report still matches, because `\s*` gives back its last whitespace character to `(.+)` |
| ShotDate.CreationTimeBlankFirst | multimedia/change_shot_date.py:82-87 | such a blank value comes out of `.strip()` empty |
| ShotDate.ShiftPhoto | multimedia/change_shot_date.py:115-160 | a processed photo reports the stripped, non-empty exiftool output as its original |
| ShotDate.ShiftVideo | multimedia/change_shot_date.py:67-113 | a processed video reports the `creation_time` value found in ffmpeg's report as its original |
| ShotDateProofs.PhotoSucceeds | multimedia/change_shot_date.py:125-158 | a photo succeeds exactly when exiftool ran, printed a non-blank value in the EXIF format, the shift stays within year 9999, and the write succeeds |
| ShotDateProofs.PhotoReadsBackShifted | multimedia/change_shot_date.py:139-144 | the value written reads back as the value read plus 728 days 23 hours |
| ShotDateProofs.PhotoBlank | multimedia/change_shot_date.py:132-135 | blank exiftool output, and only blank output, is the empty-`DateTimeOriginal` error |
| ShotDateProofs.VideoSucceeds | multimedia/change_shot_date.py:75-111 | a video succeeds exactly when ffmpeg ran, its report has a `creation_time` in ffmpeg's format, the shift stays within year 9999, and the write succeeds |
| ShotDateProofs.VideoDropsFraction | multimedia/change_shot_date.py:90-98 | the value written for a video is the shifted time without microseconds, and it does not itself parse in the format the script reads |
| ShotDateProofs.VideoRejectsWholeSeconds | multimedia/change_shot_date.py:90-93 | a `creation_time` in the script's own output format is refused as unparsable |
| ShotDateProofs.VideoNeedsZ | multimedia/change_shot_date.py:90-93 | every value the video branch accepts ends in `Z` or `z` |
| ShotDateProofs.VideoNeedsFraction | multimedia/change_shot_date.py:90-93 | every value the video branch accepts has fractional seconds, a '.' followed by a digit, however its other fields are written |
| ShotDateProofs.VideoNotFound | multimedia/change_shot_date.py:82-85 | a probe that could not run, or a report without `creation_time`, is an error whatever the write does |
| ShotDateProofs.VideoBlankValue | multimedia/change_shot_date.py:82-93 | a blank `creation_time` value is found, and `strptime` then refuses it |
| ShotDateProofs.LeapYearShift | multimedia/change_shot_date.py:138-142 | the documented EXIF example 2022-03-10 08:15:00 becomes 2024-03-08 07:15:00, across 2024's leap day |
| ShotDateProofs.NewYearShift | multimedia/change_shot_date.py:95-96 | 2022-01-01 00:00:00 becomes 2023-12-30 23:00:00 |
| Batch.Record | multimedia/set_creation_date_from_filename.py:264-277 | each file that does not raise adds exactly one to the counters |
| Batch.Loop | multimedia/set_creation_date_from_filename.py:252-277 | the loop from file `i` either completes, with counters totalling the files left, or stops at a file that raised |
| Stamping.VideoStamp | multimedia/set_video_date_from_filename.py:74-84 | the video script has a label and a time to write exactly when the UTC reading stays in the `datetime` range |
| StampingProofs.VideoStampReadsBack | multimedia/set_video_date_from_filename.py:84 | the written `creation_time` is twenty characters ending in 'Z'; read back with the same format it is the local time less the zone's offset, to the second, with no microseconds |
| Stamping.CreationStamp | multimedia/set_creation_date_from_filename.py:131-142 | the photo-and-video script has a label and a time to write exactly when the UTC reading stays in the `datetime` range |
| StampingProofs.CreationStampReadsBack | multimedia/set_creation_date_from_filename.py:142 | the written exiftool date is nineteen characters; read back with the same format it is the local time less the zone's offset, to the second, with no microseconds |
| Batch.Process | multimedia/set_creation_date_from_filename.py:248-277 | a completed loop's counters total the number of files; a stopped loop stops at a file that raised |
| BatchProofs.CountsPartition | multimedia/set_creation_date_from_filename.py:248-277 | successes, skips, errors and raises add up to the number of files |
| BatchProofs.ProcessStops | multimedia/set_creation_date_from_filename.py:252-277 | the loop completes exactly when no file raises, and otherwise stops at the first one that does |
| BatchProofs.ProcessCounts | multimedia/set_creation_date_from_filename.py:248-277 | a completed loop's counters are the numbers of successes, skips and errors among the files |
| BatchProofs.CaughtEverywhere | multimedia/change_shot_date.py:166-181 | when every file is a success or an error, the loop completes with nothing skipped and with success plus error equal to the number of files |
| FilenameBatchProofs.FileOutcomeCases | multimedia/set_creation_date_from_filename.py:257-277 | a name with no date is skipped, never an error; a date `datetime` rejects raises outside the `try`; a date succeeds exactly when its UTC reading stays in range and the copy and the tool succeed, and is an error otherwise |
| FilenameBatch.CreationRun | multimedia/set_creation_date_from_filename.py:229-277 | the script stops with status 0 exactly when no media file is found; otherwise each file is skipped exactly when its name has no date, the run completes exactly when no name holds an impossible date, and the counters then total the files |
| FilenameBatch.VideoRun | multimedia/set_video_date_from_filename.py:145-181 | the same for the video script over its video files |
| FilenameBatchProofs.AbortedExit | multimedia/set_creation_date_from_filename.py:257 | a run stopped by a rejected date exits with status 1 |
| ShotBatch.ShotOutcome | multimedia/change_shot_date.py:166-181 | every exception is caught, so each file is a success or an error |
| ShotBatch.ShotRun | multimedia/change_shot_date.py:41-183 | the script stops with status 1 exactly when no file qualifies; otherwise the loop always completes, skips nothing, exits 0, and success plus error equals the number of files |

## Left out

- Subprocesses and file copies are not modelled. What exiftool or ffmpeg printed is the
  `probe` parameter. Whether `shutil.copy2` and the writing tool succeeded is the `written`
  or `wrote` parameter.
- The photo-and-video script's probe of the old date (`set_creation_date_from_filename.py`
  lines 103-123) only prints. It is not modelled.
- Zone.ToUtc: the America/Sao_Paulo rules are not modelled. The zone's offset at a local
  reading is a parameter, so daylight-saving gaps and folds are whatever that parameter says.
- Printing, the argument count, the directory checks, `mkdir`, and the exiftool check that
  ends the photo-and-video script are not modelled. Directory iteration order is the order
  of the `entries` sequence.
- Whether exiftool is installed is the `exiftool` parameter of the shot-date script.
- Text.IsDigit: `\d` and `int()` are restricted to ASCII digits. Python also accepts other
  Unicode decimal digits.
- TimeFormat.Render: `%Y` is written zero-padded to four digits for years below 1000.
  CPython's output there depends on the platform's C library.
- TimeFormat.Parse: the model of `strptime` is exact only for separated formats. In those, no
  two-digit field is followed by a digit. All three formats the scripts use are separated;
  other formats are not claimed.
- `strptime`'s locale-dependent directives, and directives the scripts do not use, are not
  modelled.
- `extract_raw_previews.py`, `compress_video.py`, `isolate_no_creation_date.py` and
  `transactions_from_b3.py` are not part of this model.
