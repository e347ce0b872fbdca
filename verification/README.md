# Verified models of DVB demodulator and tuner drivers

Several of the frontend drivers contain self-contained integer algorithms behind their register traffic. This project
models those algorithms in Dafny, in the form they have in C (loops over local variables, buffers changed in place,
objects whose registers are rewritten), and proves what they are for. `dafny verify dfyconfig.toml` checks everything.

| file | what it models |
|---|---|
| `Arithmetic.dfy`, `Bytes.dfy` | C's unsigned types and register bytes, and facts about products and quotients |
| `BestRational.dfy` | the bounded continued-fraction loop of the m88rs6060 driver |
| `Si5351.dfy`, `Si5351Device.dfy` | PLL and output-divider parameters of its Si5351 clock chip, their packing, and the programming of one output |
| `GoldSequence.dfy`, `GoldWords.dfy`, `GoldCode.dfy`, `GoldPeriod.dfy` | the DVB-S2 scrambling register (ETSI EN 302 307, section 5.5.4): the table-driven m88rs6060 form, the plain si2183 form, and its period |
| `TsClock.dfy` | the m88rs6060 transport-stream clock divider, setter and getter |
| `PeakPicker.dfy`, `Zigzag.dfy`, `Sweep.dfy`, `Mb86a16.dfy` | the mb86a16 blind frequency sweep, its decimation ladder and its synthesiser word |
| `Firmware.dfy` | the mxl58x firmware loader, which parses an image while reversing its dwords in place |
| `Stb6100.dfy`, `Stv6110x.dfy` | two tuners: setting a frequency and computing it back from the registers |
| `Calibration.dfy` | the gx1133 calibration tables: search, interpolation, scaling |

Hardware is a register file or a memory map that a write updates. Readings of the hardware (signal levels, lock
verdicts, register bytes) are parameters and range over all values. Bus transfers succeed, except in the firmware
loader, where any of them may fail. `unsigned long` is taken to have 64 bits, `u32` arithmetic is shown not to overflow
or reduced modulo 2^32 where it can.

## Main results

* **Continued fractions.** For all inputs and limits the returned fraction is in lowest terms, and it is the best one
  within the limits if and only if the limits leave room for a fraction at all (`Attainable`, a test on the inputs).
  "Best" means least |N·q − D·p|. The comment above the C function can also be read as closest in value, |N/D − p/q|.
  That holds if and only if `ClosestInValue` does, a predicate on the inputs that follows the quotients N/D, … up to
  the one, a, that leads out of the limits: with t of its a steps still within them, the answer is closest in value
  exactly if 2t < a, or 2t = a and the next remainder decides for it. `ClosestInValueCanBeMissed` is an input for
  which it fails; a fraction that can be reached exactly, as at both call sites, is always closest, too. Neither part
  of the answer outgrows the input.
* **Clock synthesis.** At both call sites the approximation is exact. The output is never above the clamped request
  and at most 26 Hz divided by the output divider below it. For an explicit PLL frequency, any 32-bit number for which
  the code does not divide by zero, everything fits and the divider is within 10^-6 of the ratio when the ratio is
  between 6 and 1800. In general the words fit exactly for whole parts from 4 to 2051, and the divider tracks exactly
  if the whole part is at least 4 and the six digits the code takes, of another frequency outside the limits, happen
  to be those of the ratio. Inside the VCO band that leaves ratios below 6 without their fraction: 150 MHz from
  780 MHz is an example. The PLL block is never written: the code tests for a calculated rate of 0.
* **Scrambling codes.** The table's 53 entries are the register states after exactly 0, 5000, 10000, … steps. This is
  proved through a jump identity built by repeated squaring of x modulo x^18 + x^7 + 1, for every power and every start
  state. Both drivers compute the same number for every code. Two codes give the same number exactly when they are equal
  modulo 2^18 − 1.
* **Transport-stream clock.** The divisor is split into the fewest phases that hold it, as evenly as can be. The lengths
  read back add up to the clamped divisor exactly when the divisor is at least 2. The clock read back is at least the
  requested one and above it by less than one part in the divisor.
* **Blind sweep.** For any range around zero the zig-zag visits every index once, nearest first, and ends. For every
  supported request, every sequence of levels and every sequence of lock verdicts, a pass lists exactly what the picker
  picked and what was fresh, in order, at most 17 frequencies. Each was the largest of the samples compared and above
  the threshold when it was picked, and every peak that a reading turned down from, or that lies at the end of the
  range, has been tried, or a candidate too close to tell from it. Every access to the level array is in range. In each
  visit and each attempt to lock the synthesiser's registers hold the frequency in the mode that the symbol rate calls
  for, and the grid is centred where that mode can be tuned to.
* **Symbol rates.** The 24-step ladder follows one rule except at 938 and 2813 kSps. The offset fits its twelve bits
  exactly for rates from 480 to 46008, and is computed without overflow exactly up to 131071.
* **Firmware.** The outcome of a download is that of parsing an image nobody changes, and for separate, writable
  segments every cell holds the original byte of its place in the reversed, zero-padded segment. The first thing that is
  no segment, or a segment for the excluded addresses, ends the download with its own error, and exactly the segments
  before it have been written.
* **Tuners.** The STB6100 at 27 MHz reads back to within 27 kHz exactly for the frequencies below 6.912 GHz, although
  its band table goes on to 9.999999 GHz; over the tuner's range its VCO runs between 2150 and 4300 MHz. The STV6110 divider is the correctly rounded one and fits twelve bits.
* **Calibration.** The value lies on the straight line between the two entries around the reading, rounded down. It is
  exact at the calibrated readings, stays between neighbours, and orders a reading correctly against all higher ones if
  and only if the reading is at or above the last calibrated one. The scaled SNR is cut short from 20 dB on, where the
  code's comment promises 100 %.

## Model

| member | source | states |
|---|---|---|
| `BestRational.RationalBestApproximation` | dvb-frontends/m88rs6060.c:393-428 | the result has the least scaled error of all fractions within the limits iff the denominator limit is positive and N/D does not exceed the numerator limit (or that limit is 0); it is then closest to N/D in value iff the inputs meet `ClosestInValue`; it is always in lowest terms and neither part exceeds the input |
| `BestRational.NextConvergent` | dvb-frontends/m88rs6060.c:414-424 | one turn keeps N = n1·n + n0·d, D = d1·n + d0·d and the unit determinant |
| `BestRational.ErrorsAreRemainders` | dvb-frontends/m88rs6060.c:414-424 | the error of each of the last two convergents is the remainder that goes with it, with opposite signs |
| `BestRational.OlderConvergentIsBest` | dvb-frontends/m88rs6060.c:406-410 | when the newer convergent is out of reach, no fraction in reach beats the older one |
| `BestRational.Turn` | dvb-frontends/m88rs6060.c:414-424 | a turn keeps the loop's state, and neither part of the new convergent exceeds the corresponding input |
| `BestRational.StopsAtOlder` | dvb-frontends/m88rs6060.c:406-410 | leaving the loop at the limits yields the best fraction iff one is attainable, in lowest terms |
| `BestRational.StopsExact` | dvb-frontends/m88rs6060.c:411-412 | leaving the loop at remainder 0 yields a fraction without error |
| `BestRational.ReachableMeansExact` | dvb-frontends/m88rs6060.c:393-428 | if some fraction within the limits equals N/D, so does the best one, and it is closest in value |
| `BestRational.LastQuotient` | dvb-frontends/m88rs6060.c:406-424 | when quotient a leads out of the limits and t of its steps would not, the convergent left is closest in value iff 2t < a, or 2t = a and the remainders decide for it |
| `BestRational.TwoCandidates` | dvb-frontends/m88rs6060.c:406-424 | only the fraction t steps on competes: nothing within the limits lies between it and the convergent left |
| `BestRational.ClosestInValueCanBeMissed` | dvb-frontends/m88rs6060.c:378-428 | the condition for closeness in value is not met by every call: a concrete attainable one that fails it |
| `Si5351.SixDigitFraction` | dvb-frontends/m88rs6060.c:457-462 | the fractional part in millionths, rounded down, is below 10^6 |
| `Si5351.Fraction` | dvb-frontends/m88rs6060.c:464-468 | within the chip's limits the best approximation of a six-digit fraction is that fraction, in lowest terms, with a denominator of at most 10^6 |
| `Si5351.ClampedIsNearest` | dvb-frontends/m88rs6060.c:640-643 | the frequency programmed is the one inside 1 to 160 MHz, and the PLL's inside 600 to 900 MHz, that is nearest to the request |
| `Si5351.Parameters` | dvb-frontends/m88rs6060.c:470-475 | from whole part 4 on the words stand for exactly a + b/c: (p1 + 512)·p3 + p2 = 128·(a·c + b); they fit 18, 20 and 20 bits iff the whole part is between 4 and 2051; below 4 the first word wraps |
| `Si5351.PllCalc` | dvb-frontends/m88rs6060.c:430-488 | the rate is the clamped frequency less its remainder modulo 27, and the words encode exactly that rate over the crystal |
| `Si5351.MultisynthCalc` | dvb-frontends/m88rs6060.c:632-692 | the VCO lies between 600 and 900 MHz, is the largest multiple of the clamped request there and is encoded exactly; above 150 MHz it is four times the request |
| `Si5351.EncodedRatio` | dvb-frontends/m88rs6060.c:721-752 | the encoded divider is at most pll/f and less than 10^-6 below it iff the fraction encoded is that close below the remainder's share |
| `Si5351.DigitsDecide` | dvb-frontends/m88rs6060.c:721-731 | that closeness is equality of six digits |
| `Si5351.ZeroDivisors` | dvb-frontends/m88rs6060.c:715-736 | the two divisors are zero exactly for PLL frequencies below 6, and for a ratio below 1 without six-digit fraction |
| `Si5351.RecalcExactly` | dvb-frontends/m88rs6060.c:694-760 | for every PLL frequency the words fit iff the whole part is between 4 and 2051, and the divider tracks pll/f iff the whole part is at least 4 and the six digits taken are those of the ratio |
| `Si5351.RecalcInRange` | dvb-frontends/m88rs6060.c:694-760 | for every PLL frequency with 6 ≤ pll/f ≤ 1800 the words fit and the divider tracks |
| `Si5351.RecalcInBand` | dvb-frontends/m88rs6060.c:694-760 | for a PLL inside the VCO band the divider tracks iff the ratio is at least 6 or its fraction is below 10^-6 |
| `Si5351.FractionIsLost` | dvb-frontends/m88rs6060.c:713-718 | 150 MHz from a PLL at 780 MHz, a ratio of 5.2, is encoded as 5 |
| `Si5351.RateJustAbove` | dvb-frontends/m88rs6060.c:733-737 | a divider at or below the ratio gives a rate from f up, above it by at most f/6000000 for ratios of 6 or more and a divider within 10^-6 |
| `Si5351.MultisynthRecalc` | dvb-frontends/m88rs6060.c:694-760 | for every PLL frequency without division by zero: the words are those of the whole part and the digits taken; the rate lies between f and the PLL frequency if the digits are not above those of the ratio, and exceeds f by at most f/6000000 for ratios from 6 to 1800 |
| `Si5351.OutputError` | dvb-frontends/m88rs6060.c:430-692 | crystal times PLL ratio over output divider is at most the clamped request and below it by at most 26 Hz over the divider |
| `Si5351Device.PackedWordsSurvive` | dvb-frontends/m88rs6060.c:886-918 | unpacking the eight bytes gives the words back iff they fit 18, 20 and 20 bits |
| `Si5351Device.Layout` | dvb-frontends/m88rs6060.c:886-918 | which bytes of a block make up which word, the highest first |
| `Si5351Device.ChosenFits` | dvb-frontends/m88rs6060.c:800-841 | the words chosen for an output fit iff the whole part of the ratio is between 4 and 2051 (or the output is above 150 MHz) |
| `Si5351Device.Chip.WriteBulk` | dvb-frontends/m88rs6060.c:318-342 | the bytes land at consecutive registers and nothing else changes |
| `Si5351Device.Chip.WritePll` | dvb-frontends/m88rs6060.c:844-885 | no PLL register changes unless the calculated rate is zero |
| `Si5351Device.Chip.ChooseDivider` | dvb-frontends/m88rs6060.c:800-841 | for every PLL request without division by zero: which PLL frequency an output uses and records, and that the divider is the one for it |
| `Si5351Device.Chip.ProgramBlock` | dvb-frontends/m88rs6060.c:886-955 | the block holds the packed words, which can be read back iff they fit; the byte behind it becomes zero, the output points at its PLL |
| `Si5351Device.Chip.SetFreq` | dvb-frontends/m88rs6060.c:790-957 | for every PLL request without division by zero: exactly ten registers can change, never a PLL parameter; the block holds the words of the calculators, and they can be told from it iff the whole part of the ratio is between 4 and 2051 (or the output is above 150 MHz) |
| `GoldSequence.SumInsert` | dvb-frontends/m88rs6060.c:1186-1204 | reducing an exponent by x^18 = x^7 + 1 does not change the sum it stands for, on any sequence with the register's recursion |
| `GoldSequence.SumSquare` | dvb-frontends/m88rs6060.c:1080-1134 | mixed terms cancel, so squaring keeps only doubled exponents |
| `GoldSequence.Doubling` | dvb-frontends/m88rs6060.c:1080-1134 | if a jump of n is a sum of shifts, a jump of 2n (or 2n + 1) is the sum of the doubled shifts |
| `GoldSequence.JumpByPower` | dvb-frontends/m88rs6060.c:1186-1204 | jumping n steps is evaluating x^n, for every n and every sequence with the recursion |
| `GoldCode.TableJump` | dvb-frontends/m88rs6060.c:1080-1134 | x(k + 5000) = x(k) + x(k + 3) + x(k + 15) + x(k + 16) |
| `GoldCode.StateMatches` | dvb-frontends/m88rs6060.c:1186-1204 | after n single steps the register holds bits n to n + 17 of the sequence |
| `GoldCode.StepBack` | dvb-frontends/m88rs6060.c:1186-1204 | a step can be undone, on every state |
| `GoldCode.StepLinear` | dvb-frontends/m88rs6060.c:1186-1204 | a step is linear over exclusive or |
| `GoldCode.NeverZero` | dvb-frontends/m88rs6060.c:1186-1204 | the register never becomes zero |
| `GoldCode.StateJump` | dvb-frontends/m88rs6060.c:1080-1134 | five thousand single steps are one jump |
| `GoldCode.TableCorrect` | dvb-frontends/m88rs6060.c:1080-1134 | entry i has index 5000·i and holds the state after exactly that many single steps |
| `GoldCode.LastEntry` | dvb-frontends/m88rs6060.c:1147-1157 | the entry started from is at or below the code, fewer than 5000 steps before it for codes below 265000, and holds the state of its index |
| `GoldCode.LoadBits` | dvb-frontends/m88rs6060.c:1159-1176 | the eighteen variables hold consecutive bits of the sequence from the entry's index |
| `GoldCode.PlsGoldCode` | dvb-frontends/m88rs6060.c:1073-1213 | the three bytes together are the eighteen sequence bits from position code |
| `GoldCode.StepArray` | dvb-frontends/si2183.c:548-553 | one step on the array moves the held bits on by one position |
| `GoldCode.GoldCodeIndex` | dvb-frontends/si2183.c:544-558 | the result is the same number, eighteen sequence bits from position n, so both drivers agree on every code |
| `GoldWords.WordPow` | dvb-frontends/m88rs6060.c:1080-1134 | squaring on machine words and squaring exponent lists give the same powers of x |
| `GoldWords.JumpByWord` | dvb-frontends/m88rs6060.c:1186-1204 | a jump of n steps from any position is read off the word of x^n |
| `GoldPeriod.StateRepeats` | dvb-frontends/m88rs6060.c:1186-1204 | every state returns after 262143 steps |
| `GoldPeriod.NoEarlyReturn` | dvb-frontends/m88rs6060.c:1186-1204 | the first state does not return before 262143 steps |
| `GoldPeriod.StatesEqualExactly` | dvb-frontends/m88rs6060.c:1186-1204 | two step counts give the same state iff they are equal modulo 262143 |
| `GoldPeriod.CodesEqualExactly` | dvb-frontends/si2183.c:544-558 | two indices give the same scrambling number iff they are equal modulo 262143 |
| `TsClock.SplitPhases` | dvb-frontends/m88rs6060.c:1456-1551 | the number of phases is the least that holds the divisor, brought down to 64, at sixteen clocks each (three only outside serial mode), the phases used are within one clock of one another and the others zero; stored and read back, they add up to the divisor clamped to [16, 64] or [18, 64] iff the divisor is at least 2 |
| `TsClock.StoredPhasesAreRead` | dvb-frontends/m88rs6060.c:1553-1617 | the getter's divisor is the sum of the stored phase lengths that the phase count selects |
| `TsClock.CorrectedExactly` | dvb-frontends/m88rs6060.c:1440-1452 | while the product fits 32 bits, the clock is corrected by 93, 96 or 99 parts in 96, rounded down |
| `TsClock.ReadBack` | dvb-frontends/m88rs6060.c:1453-1454 | dividing the clock by the rounded-down divisor gives at least the request, by less than one part in the divisor |
| `TsClock.Demod.SetTsMclk` | dvb-frontends/m88rs6060.c:1429-1570 | the divisor held afterwards is the clamped one iff it is at least 2; the phase count is 2 up to a divisor of 32, 3 up to 48 unless serial, else 4, and unused phases are stored as zero; all other registers and the middle bits of the control register are kept |
| `TsClock.Demod.GetTsMclk` | dvb-frontends/m88rs6060.c:1571-1628 | the clock read back is the largest whose multiple by the divisor held does not exceed the PLL clock |
| `TsClock.Demod.SetAndGet` | dvb-frontends/m88rs6060.c:1429-1628 | when no clamping occurs, request ≤ read-back < request·(divisor + 1)/divisor |
| `PeakPicker.TuneTo` | dvb-frontends/mb86a16.c:906-930 | synthesiser frequency and offset make up the frequency; even MHz and an offset in [-1000, 1000) if R is 0, an offset in [-500, 500) otherwise |
| `PeakPicker.PickAbove` | dvb-frontends/mb86a16.c:766-814 | something is picked exactly from four shapes of the four levels at v, v − 1, v − 2, v − 3, and which index of each: a curve that falls from the lower end of the range, rises to its upper end, has its middle two samples above the outer ones, or ends with two above the one before; the sample is the largest of all that the case taken compares, a local maximum above the threshold, with its own level |
| `PeakPicker.PickBelow` | dvb-frontends/mb86a16.c:815-900 | the same on the lower side from five shapes, among them a sample at the lower end that is above the next two; the level reported is that of another index exactly where v + 1 is the upper end and v + 2 does not make it a peak; a range of one point picks that point at the bare synthesiser frequency |
| `PeakPicker.PickPeak` | dvb-frontends/mb86a16.c:758-904 | something is picked exactly from the shapes of the side looked at; the frequency is that of a grid index with the largest of all samples compared, above the threshold; a level that turns the curve downwards picks the index before it, and one that rises to the end of the range picks that end |
| `Sweep.FindUpper` | dvb-frontends/mb86a16.c:1110-1126 | vmax is the first index at 2150 MHz or 3 MHz and a quarter of the symbol rate beyond the request, or the last one inside the band |
| `Sweep.FindLower` | dvb-frontends/mb86a16.c:1128-1144 | the same for vmin, downwards |
| `Sweep.RangeIsSmall` | dvb-frontends/mb86a16.c:1097-1144 | for every supported request the range lies within ±18 and has more than one index, so the sixty-cell array suffices |
| `Sweep.Packing` | dvb-frontends/mb86a16.c:1189-1199 | n points that far apart need (n − 1) distances of room |
| `Sweep.AtMost17` | dvb-frontends/mb86a16.c:1189-1199 | candidates that are no duplicates and lie in the window are at most 17 |
| `Zigzag.ZigzagStep` | dvb-frontends/mb86a16.c:1225-1243 | one step extends the visited range by one index, and the counter and flags keep describing it, also after one side has run out |
| `Zigzag.VisitsGoOn` | dvb-frontends/mb86a16.c:1225-1243 | each visit is new, in [vmin − 1, vmax + 1], and the pass ends exactly when all of that is covered |
| `Sweep.IsDuplicate` | dvb-frontends/mb86a16.c:1189-1195 | true iff some listed frequency is closer than the distance |
| `Sweep.AddCandidate` | dvb-frontends/mb86a16.c:1189-1199 | a frequency is listed iff it is at least one and a half grid steps from all listed ones, positive, and less than 3 MHz and a sixth of the symbol rate from the request; there is always room |
| `Sweep.Measure` | dvb-frontends/mb86a16.c:1160-1187 | while the level is read the registers stand for the index's grid frequency, with mode bits 0 and an even number of MHz above 9375 kSps and mode bits 1 up to there; only the cell of that index changes, and the result is what the picker says of the levels then |
| `Sweep.TryCandidate` | dvb-frontends/mb86a16.c:1189-1213 | a frequency joins the list exactly if it is fresh, the registers then stand for it in the mode of the symbol rate, and it is accepted exactly if the detector says so |
| `Zigzag.Advance` | dvb-frontends/mb86a16.c:1225-1239 | the flags record which sides are exhausted, and the next step is the first one on a side that is not: it never goes back to an exhausted side and skips nothing on the other; odd steps lie above the centre |
| `Zigzag.VisitAll` | dvb-frontends/mb86a16.c:1150-1243 | for every vmin ≤ 0 ≤ vmax the loop ends after visiting each index from vmin − 1 to vmax + 1 exactly once, the nearest first |
| `Sweep.TryIndex` | dvb-frontends/mb86a16.c:1160-1224 | the level is stored while the registers stand for the grid frequency, what the picker says joins the candidates exactly if it is fresh and is then tuned to, and accepting it leaves the registers tuned to exactly that frequency |
| `Sweep.OneTurn` | dvb-frontends/mb86a16.c:1159-1243 | a turn stores one level, lists what is picked exactly if it is fresh, visits a new index and keeps the flags in step |
| `Sweep.VisitRange` | dvb-frontends/mb86a16.c:1150-1243 | a pass over a range visits the nearest indices first, all of them if nothing is accepted; levels and candidates are the functions of the visits that the picker's answers give; all candidates but an accepted last one were rejected; in every visit and for every candidate the registers stood for the frequency in the mode of the symbol rate |
| `Sweep.LevelsAreKept` | dvb-frontends/mb86a16.c:1184-1184 | the array holds the level read in each visit |
| `Sweep.ListedArePeaks` | dvb-frontends/mb86a16.c:1185-1199 | every listed frequency was, in some visit, that of a grid index whose level was the largest compared and above the threshold |
| `Sweep.PicksAreTried` | dvb-frontends/mb86a16.c:1189-1199 | whatever was picked inside the window is listed if it was fresh, and in any case the list has a frequency too close to tell from it |
| `Sweep.PeaksAreTried` | dvb-frontends/mb86a16.c:1185-1199 | a peak in the window from which a level read turned down, or an end of the range to which the levels rose, has been tried, or a candidate too close to tell from it |
| `Sweep.RangeEnds` | dvb-frontends/mb86a16.c:1097-1144 | the grid is centred on the request up to 9375 kSps and for even numbers of MHz, and on the next even number otherwise; in steps of a quarter of the symbol rate it ends at the band's edge or at the first frequency that far beyond the request |
| `Sweep.SweepPass` | dvb-frontends/mb86a16.c:1097-1243 | the whole pass, for every supported request, level sequence and verdict sequence: the grid's centre and ends, coverage, the levels read, the list as exactly what was picked and fresh, at most 17 distinct candidates, registers in the right mode for the grid frequency in every visit and for the candidate in every trial, and registers tuned to the one accepted |
| `Mb86a16.OffsetFits` | dvb-frontends/mb86a16.c:134-159 | the timing offset lies in [0, 4096) iff the rate is between 480 and 46008 kSps |
| `Mb86a16.OverflowsExactly` | dvb-frontends/mb86a16.c:134-159 | no product, difference or sum of the offset overflows a 32-bit int iff the rate is below 131072 |
| `Mb86a16.OffsetIsAccurate` | dvb-frontends/mb86a16.c:134-159 | the rate that the offset stands for is within half a step of the master clock of the request |
| `Mb86a16.Demod.SmrtInfoGet` | dvb-frontends/mb86a16.c:341-398 | the 24-step ladder is the regular rule iff the rate is neither 938 nor 2813 |
| `Mb86a16.Demod.SmrtSet` | dvb-frontends/mb86a16.c:134-159 | whenever nothing overflows, register 3 holds the ladder and registers 4 and 5 the low and high part of the offset modulo 4096, and no other register changes |
| `Mb86a16.Demod.SetSymbolRate` | dvb-frontends/mb86a16.c:134-398 | for every rate from 480 to 45900 the registers stand for a rate within half a step of the request |
| `Mb86a16.SweepRatesEncodable` | dvb-frontends/mb86a16.c:400-450 | 98 %, 102 %, a third and a half of every supported rate can be encoded |
| `Mb86a16.OscReadsBack` | dvb-frontends/mb86a16.c:451-524 | the bytes decode to the frequency iff it is even where R is 0 and its word fits seventeen bits |
| `Mb86a16.Synthesiser.RfValSet` | dvb-frontends/mb86a16.c:451-524 | the word is f/2 or f modulo 2^17 and reads back as the frequency iff it is even where R is 0 and fits; the band counts which of nine limits the frequency has reached, the loop settings follow three and four ranges of the symbol rate, and nothing outside 0x21 to 0x25 changes |
| `Mb86a16.Synthesiser.Tune` | dvb-frontends/mb86a16.c:684-930 | the frequency decoded from the registers plus the offset is exactly the one asked for, and the mode bits are R |
| `Firmware.FlipTwice` | dvb-frontends/mxl58x.c:947-956 | reversing the dwords twice changes nothing |
| `Firmware.FlipDataInDword` | dvb-frontends/mxl58x.c:947-956 | the loop reverses every dword of the range, rounded up, and nothing else |
| `Firmware.XorSwap` | dvb-frontends/mxl58x.c:108-110 | three exclusive-or assignments exchange two different cells |
| `Firmware.ConvertEndian` | dvb-frontends/mxl58x.c:101-116 | the same reversal of the whole dwords if the flag is set, no change otherwise |
| `Firmware.StoreReads` | dvb-frontends/mxl58x.c:195-216 | every byte of a transfer reads back from its cell |
| `Firmware.StoreElsewhere` | dvb-frontends/mxl58x.c:195-216 | every other cell keeps its content |
| `Firmware.BlockExtends` | dvb-frontends/mxl58x.c:970-993 | storing the next block at the advanced, wrapped address extends the image stored so far |
| `Firmware.PaddedCopy` | dvb-frontends/mxl58x.c:977-983 | the message buffer holds the bytes with zeros up to the next dword |
| `Firmware.Device.WriteOneBlock` | dvb-frontends/mxl58x.c:973-989 | the device receives the zero-padded, reversed block, and the buffer changes at most inside the block |
| `Firmware.Device.WriteFwSegment` | dvb-frontends/mxl58x.c:958-995 | all blocks together leave the zero-padded, reversed original bytes in the device; what lies behind the segment in the buffer is untouched; transfers are counted, and running out of them is reported |
| `Firmware.HighestFirst` | dvb-frontends/mxl58x.c:925-945 | for three and four bytes the result is the number they stand for with the highest byte first, below 2^24 and 2^32 |
| `Firmware.HeaderFields` | dvb-frontends/mxl58x.c:1023-1024 | the length and the address of a segment are the numbers in bytes 1 to 3 and 4 to 7 of its header, highest byte first |
| `Firmware.OneWindow` | dvb-frontends/mxl58x.c:1025-1026 | the first excluded window lies inside the second |
| `Firmware.SkipsExactly` | dvb-frontends/mxl58x.c:1025-1031 | a segment is refused exactly if its address has all bits of 0x90740000 set |
| `Firmware.Device.LoadSegment` | dvb-frontends/mxl58x.c:1017-1033 | one round on the partly reversed buffer does what it would do on the original image, with as many transfers |
| `Firmware.Device.LoadSegments` | dvb-frontends/mxl58x.c:1016-1035 | the segment loop comes to what parsing the unchanged image comes to, and fails exactly if that takes more transfers than succeed |
| `Firmware.Device.DoFirmwareDownload` | dvb-frontends/mxl58x.c:997-1036 | it fails exactly if the image needs more transfers than succeed, and then says so; otherwise status and device memory are those of parsing the image the buffer held at the start; a file without its mark is refused with -22 and nothing is written |
| `Firmware.RunLoads` | dvb-frontends/mxl58x.c:1016-1035 | where an image holds a list of writable segments, they are stored in order, with as many transfers as their lengths take, and the parser goes on behind them |
| `Firmware.LoadedReads` | dvb-frontends/mxl58x.c:1016-1035 | with no cell written twice, every cell of every segment keeps its byte to the end |
| `Firmware.ImageAt` | dvb-frontends/mxl58x.c:977-984 | byte k of a stored segment is the byte at the mirrored place in its dword, or a filling zero |
| `Firmware.DownloadIsComplete` | dvb-frontends/mxl58x.c:997-1036 | a well-formed image of separate, writable segments, as the bytes of their headers tell them, leaves every segment's original bytes, padded and reversed, in the device and the signature register zero; no other cell changes, and the transfers needed are counted |
| `Firmware.DownloadStops` | dvb-frontends/mxl58x.c:1017-1033 | the first thing that is not a segment ends the download with -22, the first segment whose address has all bits of 0x90740000 set with -1; exactly the segments before it and the signature register are written |
| `Stb6100.FindBand` | dvb-frontends/stb6100.c:356-364 | a band is found iff the frequency is below 9999999 kHz, and it is the only one that contains the frequency |
| `Stb6100.LkupContiguous` | dvb-frontends/stb6100.c:54-69 | the bands follow each other without gap or overlap, and the oscillator codes fit four bits |
| `Stb6100.PartsBack` | dvb-frontends/stb6100.c:314-388 | rounding to the nearest part and dividing back is off by at most half a part above and less than one more below |
| `Stb6100.PartsFit` | dvb-frontends/stb6100.c:387-389 | nfrac is between 0 and 512, which fits its ten bits |
| `Stb6100.ReadbackError` | dvb-frontends/stb6100.c:379-389 | for every reference, the frequency that the words stand for is off by at most half a part, plus the last rounding |
| `Stb6100.VcoIsNear` | dvb-frontends/stb6100.c:349-389 | before the division for the local oscillator the words stand for four times the frequency up to 1075 MHz and twice the frequency above, within half a part, so that from 950 to 2150 MHz the VCO runs between 2150 and 4300 MHz |
| `Stb6100.NintAt27` | dvb-frontends/stb6100.c:373-389 | at 27 MHz the integer part is between 49 and 98 from 950 to 2150 MHz |
| `Stb6100.RoundTripAt27` | dvb-frontends/stb6100.c:298-389 | at 27 MHz the frequency read back is within −27 and +26 kHz iff the frequency is below 6912000 kHz |
| `Stb6100.FieldsBack` | dvb-frontends/stb6100.c:310-408 | every field the setter packs comes out of the reader's masks, and the fixed bits are as written |
| `Stb6100.KStep` | dvb-frontends/stb6100.c:402-405 | masking and the template leave exactly the prescaler bit, two fraction bits and the fixed ones in K |
| `Stb6100.Tuner.WriteReg` | dvb-frontends/stb6100.c:173-225 | one register gets the data through the template; an unknown one, and register 0, are refused |
| `Stb6100.Tuner.Compute` | dvb-frontends/stb6100.c:349-389 | the four words, without 32-bit overflow on the way |
| `Stb6100.Tuner.SetFrequency` | dvb-frontends/stb6100.c:324-466 | success iff the frequency is in the table; then all registers hold the tuning, otherwise exactly two were written; the divider bit is set iff the frequency is at most 1075 MHz and the prescaler bit clear iff it is above that and at most 1325 MHz; wherever the integer part fits its register, the registers stand for a VCO frequency of four or two times the one asked for, between 2150 and 4300 MHz over the tuner's range |
| `Stb6100.Tuner.GetFrequency` | dvb-frontends/stb6100.c:298-321 | the frequency computed in 32 bits from the registers |
| `Stb6100.Tuner.SetAndGet` | dvb-frontends/stb6100.c:298-466 | the round trip through the registers, without overflow; at 27 MHz close iff below 6912000 kHz |
| `Stv6110x.FieldBits` | dvb-frontends/stv6110x_reg.h:15-46 | which bits of their registers the five fields are that tuning sets |
| `Stv6110x.Tng1Fields` | dvb-frontends/stv6110x_priv.h:37-44 | four fields set one after the other read back iff each value fits its field |
| `Stv6110x.NearestDivider` | dvb-frontends/stv6110x.c:137-144 | the loop returns the first of the four dividers nearest to the target, for every reference clock |
| `Stv6110x.DividerIsNearest` | dvb-frontends/stv6110x.c:146-147 | the two-step division is the exact ratio rounded to the nearest whole number, where the frequency is scaled by 4 up to 1300 MHz and by 2 above, and by 2, 4, 8 or 16 for the reference divider |
| `Stv6110x.DividerFits` | dvb-frontends/stv6110x.c:137-147 | N fits twelve bits for 950 to 2150 MHz and reference clocks from 16 to 48 MHz |
| `Stv6110x.Tuner.ChooseDividers` | dvb-frontends/stv6110x.c:137-147 | the nearest reference divider and the N divider for it, which fits twelve bits |
| `Stv6110x.RoundTrip` | dvb-frontends/stv6110x.c:146-185 | the frequency read back is off by at most half a step of the divider, plus less than 1 kHz below |
| `Stv6110x.PackedFields` | dvb-frontends/stv6110x.c:149-151 | both tuning registers together give back N, the reference divider, the band and the prescaler bit |
| `Stv6110x.Tuner.SelectBand` | dvb-frontends/stv6110x.c:117-135 | the two band bits say in which half and which part of it the frequency lies, the other bits are kept, and the search target is doubled where the oscillator is divided by four |
| `Stv6110x.Tuner.SetFrequency` | dvb-frontends/stv6110x.c:108-159 | the shadow and the chip hold the dividers of the nearest choice; registers other than the four written are kept |
| `Stv6110x.Tuner.GetFrequency` | dvb-frontends/stv6110x.c:169-186 | the frequency computed from the registers read back |
| `Stv6110x.Tuner.SetAndGet` | dvb-frontends/stv6110x.c:108-186 | set then get differs from the request by at most ref/2^(rDiv + DIV4SEL + 3), plus less than 1 kHz below |
| `Calibration.Lookup` | dvb-frontends/gx1133.c:415-430 | for every table and reading the result lies on the straight line through the two entries around the reading, rounded down, or is the first value above them all |
| `Calibration.ValueOnLine` | dvb-frontends/gx1133.c:451-463 | the same of the value that the properties below speak of |
| `Calibration.ExactAtNodes` | dvb-frontends/gx1133.c:451-463 | a calibrated reading gets its calibrated value |
| `Calibration.StaysBetween` | dvb-frontends/gx1133.c:451-463 | from the last calibrated reading on, the value lies between those of the two neighbours |
| `Calibration.Antitone` | dvb-frontends/gx1133.c:451-463 | the value never rises with the reading, across segments |
| `Calibration.MonotoneExactly` | dvb-frontends/gx1133.c:451-463 | a reading orders itself correctly against all higher ones iff it is not below the last calibrated one |
| `Calibration.SnrCalibrated` | dvb-frontends/gx1133_priv.h:432-464 | the SNR table falls in readings and rises in values, down to reading 1 |
| `Calibration.DbmCalibrated` | dvb-frontends/gx1133_priv.h:471-482 | the same for the strength table, down to reading 0x1a1 |
| `Calibration.PercentWraps` | dvb-frontends/gx1133.c:469-469 | the scaled SNR fits sixteen bits iff the reading is 0 or above 0x14, that is, below 20 dB |
| `Calibration.ReadSnr` | dvb-frontends/gx1133.c:436-475 | value and scaled value for the two register bytes, and when the scaled one is faithful |
| `Calibration.ReadSignalStrength` | dvb-frontends/gx1133.c:401-434 | the strength for the two register bytes, with nothing lost in sixteen bits |

## Left out

- The `correction` argument of `pll_calc`, which is 0 at every call, and the separate `si5351_set_pll`, whose packing is the same as the one modelled.
- `Si5351.MultisynthRecalc`: excludes exactly the calls in which the code divides by zero (`ZeroDivisors`).
- `Si5351Device.Chip.WritePll`: the ninth byte of its bulk write is uninitialised in the code and written as 0 here; the branch is never taken.
- `GoldCode.PlsGoldCode`: excludes the code 0xffffffff, for which the loop's comparison is always true.
- `TsClock.Demod.SetTsMclk`: asks that the scaled clock is not zero, because the code divides by it.
- `Sweep.SweepPass`: one of the up to three outer passes; the register writes of a visit other than the synthesiser word (symbol rate, AFCEX, reset), the fine search after a lock, and the splitting of the offset into AFCEX registers are not modelled.
- `Firmware.Device.DoFirmwareDownload`: asks that the segments lie inside the buffer as far as they are read, because the code does not compare anything with the buffer's size.
- `Firmware.Device.WriteBlock`: stores the bytes at their address; the six-byte frame around them, which together with a full block exceeds the 248-byte command buffer, is not modelled.
- `Stb6100.Tuner.SetFrequency`: register writes are taken to succeed; bandwidth, gain and sleep settings are separate functions and not modelled.
- `Stv6110x.Tuner.SetFrequency`: the polling of the calibration bit after the writes is not modelled; frequencies are the 950 to 2150 MHz the driver declares, and reference clocks those whose excess over 16 MHz fits the five-bit field.
- I2C transfers, sleeps, locking, attach and release, and error returns of register accesses outside the firmware loader.
- Status and statistics functions, modulation tables, static register initialisation, and the other drivers of the repository: each is settled by reading one branch or one table.
- The fixed-point logarithms and calibration ladders of other frontends, for which there is no exact specification.
