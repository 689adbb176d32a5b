# Ham-Doppler-Calc in Dafny

A verified model of the arithmetic and selection logic of `doppler.py`. That
script helps radio amateurs compensate the Doppler shift of satellite passes.
The model covers six parts:

- the closed-form Doppler shift for a relative velocity;
- carrying a known shift over to another frequency;
- the nearest-channel choice among stored memory channels (`best_channel`,
  `should_shift_freqs`);
- the table of memory channels interpolated between the shifts at
  acquisition and loss of signal (`compute_doppler_freqs`);
- the second-by-second scan that recommends when to switch channels
  (`compute_shift_times`);
- the search of a TLE file for one satellite (`search_for_TLE`), with the
  Python string operations it uses (`str.splitlines`, `str.split(' ')`, `in`).

Frequencies are in MHz, shifts in Hz and velocities in m/s, all as exact
`real`s. Python's `ZeroDivisionError` and `IndexError` are modelled as result
values (`Result.DivisionByZero`, `SearchResult.IndexError`), not as
preconditions. The orbit library supplies the per-instant shifts. Here they
are inputs: a `ShiftPair` (receive and transmit shift in Hz) at acquisition
and at loss of signal for the channel table, and a sequence of `ShiftPair`s,
one per second of the pass, for the switch scan. A switch's time is its
second index in the pass.

Files and modules:

- `doppler_math.dfy` (`DopplerMath`): `doppler_shift`, `doppler_convert`,
  `should_shift_freqs`, and the "frequency plus shift / 10^6" step used in
  several places.
- `channels.dfy` (`Channels`): `best_channel` and `compute_doppler_freqs`.
- `shift_times.dfy` (`ShiftTimes`): `compute_shift_times`.
- `py_text.dfy` (`PyText`): `str.splitlines`, `str.split` with a
  one-character separator, and substring search.
- `tle_search.dfy` (`TleSearch`): `search_for_TLE`.

The loops of `best_channel`, `compute_doppler_freqs`, `compute_shift_times`
and `search_for_TLE` are methods with loop invariants. `BestChannel` and
`ComputeShiftTimes` are proved equal to reference functions (`Nearest`, a left
fold `Scan`). The properties of those functions are proved as lemmas.

## Model

| member | source | states |
|---|---|---|
| `DopplerMath.DopplerShift` | doppler.py:21-26 | fails exactly when `vel == -C`; otherwise the shift `s` satisfies `s * (C + vel) == f0 * 10^6 * vel`, i.e. `s = f0·10^6·vel/(C+vel)` |
| `DopplerMath.DopplerShiftAtRest` | doppler.py:21-26 | zero velocity gives a zero shift |
| `DopplerMath.DopplerShiftSign` | doppler.py:21-26 | for `f0 > 0` and `vel > -C` the shift is positive iff `vel > 0` and negative iff `vel < 0` |
| `DopplerMath.ShouldShiftFreqs` | doppler.py:39-44 | true iff `|fRight - f| <= |fLeft - f|` (ties go right); equivalently `f` has reached the midpoint of the two frequencies from `fLeft`'s side, and always true when they are equal |
| `DopplerMath.DopplerConvert` | doppler.py:58-66 | fails exactly when `fOrig == 0`; otherwise the new shift `s` satisfies `s * fOrig == fShift * fNew` |
| `DopplerMath.ConvertToSameFrequency` | doppler.py:58-66 | converting to the same frequency returns the shift unchanged |
| `DopplerMath.ConvertZeroShift` | doppler.py:58-66 | a zero shift converts to a zero shift |
| `DopplerMath.ConvertRoundTrip` | doppler.py:58-66 | converting to `fNew` and back to `fOrig` restores the shift |
| `DopplerMath.ConvertAgreesWithShift` | doppler.py:58-66 | for one velocity, converting the shift of `fOrig` to `fNew` equals `DopplerShift(fNew, vel)` |
| `DopplerMath.Shifted` | doppler.py:210-211 | the shift in Hz is recovered from the shifted frequency: `(r - freq) * 10^6 == shift` |
| `Channels.Nearest` | doppler.py:170-179 | -1 exactly when there are no channels, otherwise an index in `[0, len(mems))` |
| `Channels.NearestIsFirstArgmin` | doppler.py:174-177 | the chosen channel's receive distance is `<=` that of every channel and strictly `<` that of every earlier one; only the receive frequency is compared |
| `Channels.BestChannel` | doppler.py:170-179 | the loop returns `Nearest`: -1 iff `mems` is empty, otherwise the first channel at minimal receive distance |
| `Channels.ShouldShiftIsNearestOfTwo` | doppler.py:39-44 | `should_shift_freqs(f, l, r)` holds iff the channel scan over `[r, l]` picks index 0: both break ties toward `r` |
| `Channels.ComputeDopplerFreqs` | doppler.py:114-132 | division by zero iff `channels == 1`; otherwise `max(channels, 0)` entries, entry `k` shifted by `start + k·(end-start)/(channels-1)`, the first entry from the start shifts and the last from the end shifts |
| `Channels.TableEndpoints` | doppler.py:123-130 | for `channels >= 2` entry 0 uses the start shifts and entry `channels-1` the end shifts |
| `Channels.TableEvenlySpaced` | doppler.py:123-130 | neighbouring entries differ by the same step, `(last - first) / (channels - 1)`, on both frequencies |
| `Channels.TableWithinPass` | doppler.py:123-130 | every entry lies between the first and the last entry |
| `ShiftTimes.ScanIsWellFormed` | doppler.py:201-217 | the current channel is that of the latest switch; every switch has a valid channel, the nearest one at its second, with that second's shifted frequencies; seconds strictly increase; consecutive channels differ; nothing follows a switch to the last channel |
| `ShiftTimes.ScheduleChoosesNearest` | doppler.py:209-215 | each switch's channel is the first channel at minimal distance from that second's shifted receive frequency |
| `ShiftTimes.NoChannelsNoSwitches` | doppler.py:213-215 | with no memory channels the switch list is empty |
| `ShiftTimes.ScheduleGrows` | doppler.py:207-215 | the switches of a prefix of the pass are a prefix of the switches of the whole pass |
| `ShiftTimes.FirstSecondSwitches` | doppler.py:203-215 | with at least one channel and one second, the first switch is at second 0 |
| `ShiftTimes.TracksNearest` | doppler.py:212-215 | after each second the current channel is the nearest for that second, or the last channel |
| `ShiftTimes.ComputeShiftTimes` | doppler.py:201-217 | the loop returns the scan's switch list; it is well formed, empty without channels, and starts at second 0 otherwise |
| `PyText.SplitLines` | doppler.py:279 | no line holds a line boundary; the text is empty iff there are no lines |
| `PyText.SplitLinesOfJoin` | doppler.py:279 | splitting `"\n".join(lines)` returns `lines` when no line holds a boundary and the last is non-empty |
| `PyText.SplitLinesOfTerminated` | doppler.py:279 | splitting a file whose every line ends in "\n", or every line in "\r\n", returns exactly its lines, empty ones included, when no line holds a boundary |
| `PyText.SplitOn` | doppler.py:289 | at least one field; two or more iff the separator occurs; no field holds the separator |
| `PyText.JoinOfSplitOn` | doppler.py:289 | joining the fields with the separator restores the text |
| `PyText.SecondField` | doppler.py:289 | field 1 is the text between the first and second separator (or the end) |
| `PyText.ContainsInfix` | doppler.py:286 | `needle in before + needle + after` holds, so the empty text is in every text |
| `TleSearch.Judge` | doppler.py:285-290 | a record test faults iff the field is "catalog" and line 2 has no space; for "name" it hits iff the text occurs in the name line; for "catalog" with a space in line 2 it hits iff the text equals field 1 of line 2; other fields never hit |
| `TleSearch.SearchForTle` | doppler.py:278-292 | returns the first record at line offset 0, 3, 6, ... that matches; IndexError iff an incomplete record or a faulty catalog test is reached first; `NotFound` iff the line count is a multiple of 3 and no record matches |

## Left out

- `compute_doppler` (doppler.py:84-90): it asks the orbit library for the range velocity. Its shifts are inputs of the model instead.
- `compute_shift_graph` (doppler.py:154-164): it only samples the orbit library. As written it also unpacks three values from the two that `compute_doppler` returns (line 161).
- `next_high_pass` (doppler.py:234-245): it only drives the orbit library's pass prediction. As written, `limit -= 0` (line 241) never lowers the limit.
- `download_TLEs`, `lookup_satellite_transmitters`, `get_current_location` (doppler.py:257-351): HTTP clients.
- `main` (doppler.py:359-436): argument parsing, printing and orchestration, including the averaging of channel tables over several passes.
- Time: the source records `obs.date = AOS + i * SECOND`. The model records the second index `i`, and the number of seconds is the length of the input sequence.
- Floating point: all arithmetic is exact over the reals, so IEEE rounding and NaN are not modelled. The identities about `DopplerConvert` hold over the reals only.
- Default arguments: `channels=5` and `rx_freq=tx_freq=0.0` of `compute_doppler_freqs` (doppler.py:114), and `rx_freq=tx_freq=0.0` of `compute_shift_times` (doppler.py:201), are ordinary parameters in the model that every caller passes. `main` always passes every argument, so no behaviour is lost.
- Dynamic typing: the source accepts any Python values. The model fixes the types (reals, integers, strings).
