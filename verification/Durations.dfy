/**
  The retention and expiry display of Pub/Sub topics and subscriptions: a number of seconds
  is cut greedily into days, hours, minutes and seconds, and only the first two non-zero
  units are shown.
 */
module Durations {
  import opened Basics
  import opened Text

  datatype Unit = Unit(name: string, seconds: nat)

  /** One displayed unit. */
  datatype Part = Part(value: int, unit: Unit)

  const DAYS := Unit("days", 86400)
  const HOURS := Unit("hr", 3600)
  const MINUTES := Unit("min", 60)
  const SECONDS := Unit("seconds", 1)
  const INTERVALS := [DAYS, HOURS, MINUTES, SECONDS]
  const GRANULARITY := 2

  /** A table of units the greedy cut is exact for: it ends in a unit of one second. */
  ghost predicate Table(units: seq<Unit>)
  {
    units != [] && units[|units| - 1].seconds == 1 && forall u :: u in units ==> u.seconds > 0
  }

  // ---------- the greedy cut ----------

  /** The non-zero units of `seconds`, largest first; the quotient is floored, also below zero. */
  function Parts(seconds: int, units: seq<Unit>): seq<Part>
    requires forall u :: u in units ==> u.seconds > 0
    decreases |units|
  {
    if units == [] then []
    else
      var u := units[0];
      var value := seconds / u.seconds;
      if value == 0 then Parts(seconds, units[1..])
      else [Part(value, u)] + Parts(seconds - value * u.seconds, units[1..])
  }

  function Total(parts: seq<Part>): int
  {
    if parts == [] then 0 else parts[0].value * parts[0].unit.seconds + Total(parts[1..])
  }

  function First(parts: seq<Part>, granularity: nat): seq<Part>
  {
    if |parts| <= granularity then parts else parts[..granularity]
  }

  function StripTrailing(s: string, c: char): string
  {
    if s != "" && s[|s| - 1] == c then StripTrailing(s[..|s| - 1], c) else s
  }

  function Label(part: Part): string
  {
    if part.value == 1 then StripTrailing(part.unit.name, 's') else part.unit.name
  }

  function PartText(part: Part): string
  {
    IntText(part.value) + " " + Label(part)
  }

  function PartTexts(parts: seq<Part>): (texts: seq<string>)
    ensures |texts| == |parts|
    ensures forall i :: 0 <= i < |parts| ==> texts[i] == PartText(parts[i])
  {
    seq(|parts|, i requires 0 <= i < |parts| => PartText(parts[i]))
  }

  function Shown(seconds: int, granularity: nat): string
  {
    Join(PartTexts(First(Parts(seconds, INTERVALS), granularity)), ' ')
  }

  lemma PartsFrom(rest: int, units: seq<Unit>, i: nat)
    requires i < |units| && forall u :: u in units ==> u.seconds > 0
    ensures var value := rest / units[i].seconds;
            Parts(rest, units[i..]) ==
              if value == 0 then Parts(rest, units[i + 1..])
              else [Part(value, units[i])] + Parts(rest - value * units[i].seconds, units[i + 1..])
  {
    assert units[i..][1..] == units[i + 1..];
  }

  lemma PartTextsOfBoth(a: seq<Part>, b: seq<Part>)
    ensures PartTexts(a + b) == PartTexts(a) + PartTexts(b)
  {
  }

  lemma MoveOver(done: seq<Part>, step: seq<Part>, rest: seq<Part>)
    ensures done + (step + rest) == (done + step) + rest
  {
  }

  /** One unit of the loop: its text, if it is not zero, and what is left for the next units. */
  method CutUnit(rest: int, intervals: seq<Unit>, i: nat) returns (texts: seq<string>, left: int, ghost step: seq<Part>)
    requires i < |intervals| && forall u :: u in intervals ==> u.seconds > 0
    ensures Parts(rest, intervals[i..]) == step + Parts(left, intervals[i + 1..])
    ensures texts == PartTexts(step)
  {
    var unit := intervals[i];
    PartsFrom(rest, intervals, i);
    var value := rest / unit.seconds;
    texts, left, step := [], rest, [];
    if value != 0 {
      left := rest - value * unit.seconds;
      var name := unit.name;
      if value == 1 {
        name := StripTrailing(name, 's');
      }
      texts, step := [IntText(value) + " " + name], [Part(value, unit)];
    }
  }

  /** The display loop: cut off each unit in turn and keep the text of the non-zero ones. */
  method UnitTexts(seconds: int, intervals: seq<Unit>) returns (result: seq<string>)
    requires forall u :: u in intervals ==> u.seconds > 0
    ensures result == PartTexts(Parts(seconds, intervals))
  {
    result := [];
    var rest := seconds;
    ghost var done: seq<Part> := [];
    for i := 0 to |intervals|
      invariant result == PartTexts(done)
      invariant done + Parts(rest, intervals[i..]) == Parts(seconds, intervals)
    {
      var texts, left, step := CutUnit(rest, intervals, i);
      PartTextsOfBoth(done, step);
      MoveOver(done, step, Parts(left, intervals[i + 1..]));
      result, rest, done := result + texts, left, done + step;
    }
    assert done == Parts(seconds, intervals);
  }

  method DisplayTime(seconds: int, granularity: nat := GRANULARITY) returns (text: string)
    ensures text == Shown(seconds, granularity)
  {
    var result := UnitTexts(seconds, INTERVALS);
    var shown := if |result| <= granularity then result else result[..granularity];
    assert shown == PartTexts(First(Parts(seconds, INTERVALS), granularity));
    text := Join(shown, ' ');
  }

  // ---------- nothing is lost before the cut to two units ----------

  /** Before the cut to two units nothing is lost, for negative seconds too. */
  lemma {:induction false} PartsLoseNothing(seconds: int, units: seq<Unit>)
    requires Table(units)
    ensures Total(Parts(seconds, units)) == seconds
    decreases |units|
  {
    var value := seconds / units[0].seconds;
    if |units| == 1 {
      assert units[0].seconds == 1 && Parts(seconds - value, units[1..]) == [];
    } else if value == 0 {
      PartsLoseNothing(seconds, units[1..]);
    } else {
      PartsLoseNothing(seconds - value * units[0].seconds, units[1..]);
    }
  }

  // ---------- the cut to a few units ----------

  lemma MultiplesApart(p: int, q: int, u: nat)
    requires p < q
    ensures p * u + u <= q * u
  {
    var gap := q - p - 1;
    assert q * u == (p + 1 + gap) * u == p * u + u + gap * u;
    NonNegative(gap, u);
  }

  lemma NonNegative(a: nat, b: nat)
    ensures a * b >= 0
  {
  }

  /** What `//` leaves behind. */
  lemma FloorRest(x: int, u: nat)
    requires u > 0
    ensures 0 <= x - (x / u) * u < u
    ensures x >= 0 ==> x / u >= 0 && (x / u) * u >= 0
  {
    assert x == (x / u) * u + x % u;
  }

  lemma FloorMonotone(a: int, b: int, u: nat)
    requires a <= b && u > 0
    ensures a / u <= b / u
    ensures a / u < b / u ==> a < (b / u) * u
  {
    var p, q := a / u, b / u;
    FloorRest(a, u);
    FloorRest(b, u);
    if q < p {
      MultiplesApart(q, p, u);
    } else if p < q {
      MultiplesApart(p, q, u);
    }
  }

  /** What the shown units add up to. */
  function ShownSeconds(seconds: int, units: seq<Unit>, granularity: nat): int
    requires forall u :: u in units ==> u.seconds > 0
  {
    Total(First(Parts(seconds, units), granularity))
  }

  lemma ShownPeels(part: Part, rest: seq<Part>, granularity: nat)
    requires granularity > 0
    ensures First([part] + rest, granularity) == [part] + First(rest, granularity - 1)
    ensures Total(First([part] + rest, granularity)) ==
              part.value * part.unit.seconds + Total(First(rest, granularity - 1))
  {
    var all := [part] + rest;
    assert First(all, granularity) == [part] + First(rest, granularity - 1);
    assert First(all, granularity)[1..] == First(rest, granularity - 1);
  }

  /** Peeling the first unit off the shown seconds. */
  lemma ShownSecondsStep(seconds: int, units: seq<Unit>, granularity: nat)
    requires Table(units) && |units| > 1 && granularity > 0
    ensures var value := seconds / units[0].seconds;
            ShownSeconds(seconds, units, granularity) ==
              if value == 0 then ShownSeconds(seconds, units[1..], granularity)
              else value * units[0].seconds +
                   ShownSeconds(seconds - value * units[0].seconds, units[1..], granularity - 1)
  {
    var value := seconds / units[0].seconds;
    if value != 0 {
      ShownPeels(Part(value, units[0]), Parts(seconds - value * units[0].seconds, units[1..]), granularity);
    }
  }

  /**
    The display never overstates; it falls short by less than the last unit it shows,
    and only when units were dropped.
   */
  lemma {:induction false} ShownUnderstatesByLessThanItsLastUnit(seconds: int, units: seq<Unit>, granularity: nat)
    requires Table(units) && granularity > 0
    ensures var all := Parts(seconds, units);
            var shown := First(all, granularity);
            if |all| <= granularity then Total(shown) == seconds
            else shown != [] && 0 <= seconds - Total(shown) < shown[|shown| - 1].unit.seconds
    decreases |units|
  {
    var all := Parts(seconds, units);
    PartsLoseNothing(seconds, units);
    FloorRest(seconds, units[0].seconds);
    if |all| > granularity {
      assert |units| > 1;
      var value := seconds / units[0].seconds;
      if value == 0 {
        ShownUnderstatesByLessThanItsLastUnit(seconds, units[1..], granularity);
      } else {
        var rest := seconds - value * units[0].seconds;
        if granularity > 1 {
          ShownUnderstatesByLessThanItsLastUnit(rest, units[1..], granularity - 1);
        }
        PeelUnderstates(Part(value, units[0]), Parts(rest, units[1..]), rest, granularity);
      }
    }
  }

  /** What the tail falls short by, the whole falls short by. */
  lemma PeelUnderstates(part: Part, tail: seq<Part>, rest: int, granularity: nat)
    requires 0 < granularity <= |tail| && 0 <= rest < part.unit.seconds
    requires granularity > 1 ==>
               var shown := First(tail, granularity - 1);
               shown != [] && 0 <= rest - Total(shown) < shown[|shown| - 1].unit.seconds
    ensures var shown := First([part] + tail, granularity);
            shown != [] && 0 <= part.value * part.unit.seconds + rest - Total(shown) < shown[|shown| - 1].unit.seconds
  {
    ShownPeels(part, tail, granularity);
    var tailShown := First(tail, granularity - 1);
    if granularity == 1 {
      assert tailShown == [];
    } else {
      assert ([part] + tailShown)[|tailShown|] == tailShown[|tailShown| - 1];
    }
  }

  lemma ShownSecondsAtMost(seconds: int, units: seq<Unit>, granularity: nat)
    requires Table(units)
    requires seconds >= 0 || granularity > 0
    ensures ShownSeconds(seconds, units, granularity) <= seconds
  {
    if granularity > 0 {
      ShownUnderstatesByLessThanItsLastUnit(seconds, units, granularity);
    } else {
      assert First(Parts(seconds, units), 0) == [];
    }
  }

  lemma {:induction false} NonNegativeParts(seconds: nat, units: seq<Unit>)
    requires forall u :: u in units ==> u.seconds > 0
    ensures forall p :: p in Parts(seconds, units) ==> p.value >= 0
    decreases |units|
  {
    if units != [] {
      FloorRest(seconds, units[0].seconds);
      var value := seconds / units[0].seconds;
      NonNegativeParts(if value == 0 then seconds else seconds - value * units[0].seconds, units[1..]);
    }
  }

  lemma {:induction false} NonNegativeTotal(parts: seq<Part>)
    requires forall p :: p in parts ==> p.value >= 0
    ensures Total(parts) >= 0
  {
    if parts != [] {
      assert parts[0] in parts;
      NonNegative(parts[0].value, parts[0].unit.seconds);
      NonNegativeTotal(parts[1..]);
    }
  }

  /** The shown seconds of a duration that is not negative are not negative, and never too many. */
  lemma ShownSecondsBounds(seconds: int, units: seq<Unit>, granularity: nat)
    requires Table(units)
    requires seconds >= 0 || granularity > 0
    ensures ShownSeconds(seconds, units, granularity) <= seconds
    ensures seconds >= 0 ==> ShownSeconds(seconds, units, granularity) >= 0
  {
    ShownSecondsAtMost(seconds, units, granularity);
    if seconds >= 0 {
      NonNegativeParts(seconds, units);
      NonNegativeTotal(First(Parts(seconds, units), granularity));
    }
  }

  /** The shown seconds reach the whole multiple of the first unit. */
  lemma ShownReachesTheFirstUnit(seconds: int, units: seq<Unit>, granularity: nat)
    requires Table(units) && granularity > 0
    ensures (seconds / units[0].seconds) * units[0].seconds <= ShownSeconds(seconds, units, granularity)
  {
    FloorRest(seconds, units[0].seconds);
    if |units| == 1 {
      PartsLoseNothing(seconds, units);
      assert Parts(0, units[1..]) == [];
    } else {
      ShownSecondsStep(seconds, units, granularity);
      var value := seconds / units[0].seconds;
      var rest := seconds - value * units[0].seconds;
      if value == 0 {
        assert value * units[0].seconds == 0;
        ShownSecondsBounds(seconds, units[1..], granularity);
        assert ShownSeconds(seconds, units[1..], granularity) >= 0;
      } else {
        ShownSecondsBounds(rest, units[1..], granularity - 1);
        assert ShownSeconds(rest, units[1..], granularity - 1) >= 0;
      }
    }
  }

  /** A longer duration is never displayed as a shorter one. */
  lemma {:induction false} ShownSecondsMonotone(a: int, b: int, units: seq<Unit>, granularity: nat)
    requires Table(units)
    requires a <= b
    ensures ShownSeconds(a, units, granularity) <= ShownSeconds(b, units, granularity)
    decreases |units|
  {
    if granularity == 0 {
      assert First(Parts(a, units), 0) == [] && First(Parts(b, units), 0) == [];
    } else {
      var u := units[0].seconds;
      FloorMonotone(a, b, u);
      if a / u < b / u {
        ShownSecondsBounds(a, units, granularity);
        ShownReachesTheFirstUnit(b, units, granularity);
      } else if |units| > 1 {
        ShownSecondsStep(a, units, granularity);
        ShownSecondsStep(b, units, granularity);
        if a / u == 0 {
          ShownSecondsMonotone(a, b, units[1..], granularity);
        } else {
          ShownSecondsMonotone(a - (a / u) * u, b - (b / u) * u, units[1..], granularity - 1);
        }
      }
    }
  }

  // ---------- reading the text back ----------

  /** The unit a label names, in the singular for one of it; a reader knows the lengths by itself. */
  function UnitNamed(value: int, name: string): Option<Unit>
  {
    if name == (if value == 1 then "day" else "days") then Some(Unit("days", 24 * 60 * 60))
    else if name == "hr" then Some(Unit("hr", 60 * 60))
    else if name == "min" then Some(Unit("min", 60))
    else if name == (if value == 1 then "second" else "seconds") then Some(Unit("seconds", 1))
    else None
  }

  function ReadTokens(tokens: seq<string>): Option<seq<Part>>
  {
    if tokens == [] then Some([])
    else if |tokens| == 1 then None
    else
      match (ParseInt(tokens[0]), ReadTokens(tokens[2..]))
      case (Some(value), Some(rest)) =>
        (match UnitNamed(value, tokens[1])
         case Some(unit) => Some([Part(value, unit)] + rest)
         case None => None)
      case _ => None
  }

  /** A reader for the displayed text. */
  function ReadDisplay(text: string): Option<seq<Part>>
  {
    if text == "" then Some([]) else ReadTokens(Split(text, ' '))
  }

  function Tokens(parts: seq<Part>): seq<string>
  {
    if parts == [] then [] else [IntText(parts[0].value), Label(parts[0])] + Tokens(parts[1..])
  }

  ghost predicate FromIntervals(parts: seq<Part>)
  {
    forall p :: p in parts ==> p.unit in INTERVALS
  }

  lemma LabelFacts(part: Part)
    requires part.unit in INTERVALS
    ensures UnitNamed(part.value, Label(part)) == Some(part.unit)
    ensures ' ' !in Label(part)
  {
    assert StripTrailing("days", 's') == "day" by {
      assert "days"[..3] == "day";
    }
    assert StripTrailing("seconds", 's') == "second" by {
      assert "seconds"[..6] == "second";
    }
  }

  lemma {:induction false} TokensReadBack(parts: seq<Part>)
    requires FromIntervals(parts)
    ensures ReadTokens(Tokens(parts)) == Some(parts)
    ensures forall t :: t in Tokens(parts) ==> ' ' !in t
  {
    if parts != [] {
      assert parts[0] in parts;
      LabelFacts(parts[0]);
      ParseIntOfIntText(parts[0].value);
      TokensReadBack(parts[1..]);
      assert Tokens(parts)[2..] == Tokens(parts[1..]);
      assert parts == [parts[0]] + parts[1..];
    }
  }

  lemma {:induction false} JoinedTexts(parts: seq<Part>)
    requires parts != []
    ensures Join(PartTexts(parts), ' ') == Join(Tokens(parts), ' ')
  {
    var head := [IntText(parts[0].value), Label(parts[0])];
    assert Join(head, ' ') == PartText(parts[0]) by {
      assert head[1..] == [Label(parts[0])];
    }
    if |parts| == 1 {
      assert PartTexts(parts) == [PartText(parts[0])];
      assert Tokens(parts) == head;
    } else {
      JoinedTexts(parts[1..]);
      assert PartTexts(parts)[1..] == PartTexts(parts[1..]);
      assert Tokens(parts[1..]) != [];
      JoinAppend(head, Tokens(parts[1..]), ' ');
    }
  }

  /** The displayed text determines the displayed units. */
  lemma RenderReadsBack(parts: seq<Part>)
    requires FromIntervals(parts)
    ensures ReadDisplay(Join(PartTexts(parts), ' ')) == Some(parts)
  {
    if parts != [] {
      JoinedTexts(parts);
      TokensReadBack(parts);
      SplitJoin(Tokens(parts), ' ');
      assert Join(Tokens(parts), ' ') != "" by {
        assert Tokens(parts)[0] != "";
      }
    }
  }

  lemma {:induction false} PartsUseTheirUnits(seconds: int, units: seq<Unit>)
    requires forall u :: u in units ==> u.seconds > 0
    ensures forall p :: p in Parts(seconds, units) ==> p.unit in units
    ensures |Parts(seconds, units)| <= |units|
    decreases |units|
  {
    if units != [] {
      var value := seconds / units[0].seconds;
      PartsUseTheirUnits(if value == 0 then seconds else seconds - value * units[0].seconds, units[1..]);
    }
  }

  /** Days, hours of the day, minutes of the hour, seconds of the minute. */
  function Digits(seconds: int): seq<Part>
  {
    [Part(seconds / 86400, Unit("days", 86400)), Part(seconds % 86400 / 3600, Unit("hr", 3600)),
     Part(seconds % 3600 / 60, Unit("min", 60)), Part(seconds % 60, Unit("seconds", 1))]
  }

  function NonZero(parts: seq<Part>): seq<Part>
  {
    if parts == [] then [] else (if parts[0].value == 0 then [] else [parts[0]]) + NonZero(parts[1..])
  }

  lemma NonZeroNext(head: Part, tail: seq<Part>)
    ensures NonZero([head] + tail) == (if head.value == 0 then [] else [head]) + NonZero(tail)
  {
    assert ([head] + tail)[1..] == tail;
  }

  lemma RestIsRemainder(x: int, u: nat)
    requires u > 0
    ensures x - (x / u) * u == x % u
  {
  }

  lemma PartsNext(seconds: int, unit: Unit, units: seq<Unit>)
    requires unit.seconds > 0 && forall u :: u in units ==> u.seconds > 0
    ensures Parts(seconds, [unit] + units) ==
              (if seconds / unit.seconds == 0 then [] else [Part(seconds / unit.seconds, unit)])
              + Parts(seconds % unit.seconds, units)
  {
    var value := seconds / unit.seconds;
    assert ([unit] + units)[1..] == units;
    RestIsRemainder(seconds, unit.seconds);
    if value == 0 {
      assert value * unit.seconds == 0;
      assert [] + Parts(seconds, units) == Parts(seconds, units);
    }
  }

  /** A remainder is the only one. */
  lemma RemainderIs(x: int, u: nat, q: int, r: nat)
    requires r < u && x == q * u + r
    ensures x % u == r
  {
    var p := x / u;
    FloorRest(x, u);
    RestIsRemainder(x, u);
    if p < q {
      MultiplesApart(p, q, u);
    } else if q < p {
      MultiplesApart(q, p, u);
    }
  }

  lemma HourOfDay(x: int)
    ensures x % 86400 % 3600 == x % 3600
  {
    var days, rest := x / 86400, x % 86400;
    assert x == 86400 * days + rest && rest == 3600 * (rest / 3600) + rest % 3600;
    RemainderIs(x, 3600, 24 * days + rest / 3600, rest % 3600);
  }

  lemma MinuteOfHour(x: int)
    ensures x % 3600 % 60 == x % 60
  {
    var hours, rest := x / 3600, x % 3600;
    assert x == 3600 * hours + rest && rest == 60 * (rest / 60) + rest % 60;
    RemainderIs(x, 60, 60 * hours + rest / 60, rest % 60);
  }

  lemma SecondsDigit(x: int)
    ensures Parts(x % 60, [SECONDS]) == NonZero([Part(x % 60, Unit("seconds", 1))])
  {
    PartsNext(x % 60, SECONDS, []);
    NonZeroNext(Part(x % 60, SECONDS), []);
    assert [SECONDS] + [] == [SECONDS] && [Part(x % 60, SECONDS)] + [] == [Part(x % 60, SECONDS)];
  }

  lemma MinutesDigits(x: int)
    ensures Parts(x % 3600, [MINUTES, SECONDS]) ==
              NonZero([Part(x % 3600 / 60, Unit("min", 60)), Part(x % 60, Unit("seconds", 1))])
  {
    var head, tail := Part(x % 3600 / 60, MINUTES), [Part(x % 60, SECONDS)];
    PartsNext(x % 3600, MINUTES, [SECONDS]);
    MinuteOfHour(x);
    SecondsDigit(x);
    NonZeroNext(head, tail);
    assert [MINUTES] + [SECONDS] == [MINUTES, SECONDS] && [head] + tail == [head, Part(x % 60, SECONDS)];
  }

  lemma HoursDigits(x: int)
    ensures Parts(x % 86400, [HOURS, MINUTES, SECONDS]) ==
              NonZero([Part(x % 86400 / 3600, Unit("hr", 3600)), Part(x % 3600 / 60, Unit("min", 60)),
                       Part(x % 60, Unit("seconds", 1))])
  {
    var head, tail := Part(x % 86400 / 3600, HOURS), [Part(x % 3600 / 60, MINUTES), Part(x % 60, SECONDS)];
    PartsNext(x % 86400, HOURS, [MINUTES, SECONDS]);
    HourOfDay(x);
    MinutesDigits(x);
    NonZeroNext(head, tail);
    assert [HOURS] + [MINUTES, SECONDS] == [HOURS, MINUTES, SECONDS];
    assert [head] + tail == [head, Part(x % 3600 / 60, MINUTES), Part(x % 60, SECONDS)];
  }

  /** The greedy cut is the mixed-radix notation of the seconds, without its zeros. */
  lemma PartsAreDigits(seconds: int)
    ensures Parts(seconds, INTERVALS) == NonZero(Digits(seconds))
  {
    var head := Part(seconds / 86400, DAYS);
    var tail := [Part(seconds % 86400 / 3600, HOURS), Part(seconds % 3600 / 60, MINUTES), Part(seconds % 60, SECONDS)];
    PartsNext(seconds, DAYS, [HOURS, MINUTES, SECONDS]);
    HoursDigits(seconds);
    NonZeroNext(head, tail);
    assert [DAYS] + [HOURS, MINUTES, SECONDS] == INTERVALS && [head] + tail == Digits(seconds);
  }

  /**
    What a reader of a two-unit display learns of the seconds: the first two non-zero digits of
    their days, hours, minutes and seconds; an amount that is never more than the true one, exact
    when at most two digits are non-zero, and otherwise short by less than the last unit on display.
   */
  ghost predicate Displays(text: string, seconds: int)
  {
    var all, shown := NonZero(Digits(seconds)), ReadDisplay(text);
    && shown == Some(if |all| <= 2 then all else all[..2])
    && Total(shown.value) <= seconds
    && (|all| <= 2 ==> Total(shown.value) == seconds)
    && (|all| > 2 ==> seconds - Total(shown.value) < shown.value[1].unit.seconds)
  }

  lemma DisplayMeaning(seconds: int)
    ensures Displays(Shown(seconds, GRANULARITY), seconds)
  {
    var all := Parts(seconds, INTERVALS);
    PartsAreDigits(seconds);
    PartsUseTheirUnits(seconds, INTERVALS);
    RenderReadsBack(First(all, GRANULARITY));
    ShownUnderstatesByLessThanItsLastUnit(seconds, INTERVALS, GRANULARITY);
  }

  /** With every unit shown the text gives the seconds back, so no two durations share it. */
  lemma FullDisplayIsInjective(a: int, b: int)
    ensures ReadDisplay(Shown(a, |INTERVALS|)).Some?
    ensures Total(ReadDisplay(Shown(a, |INTERVALS|)).value) == a
    ensures Shown(a, |INTERVALS|) == Shown(b, |INTERVALS|) ==> a == b
  {
    PartsUseTheirUnits(a, INTERVALS);
    PartsUseTheirUnits(b, INTERVALS);
    RenderReadsBack(Parts(a, INTERVALS));
    RenderReadsBack(Parts(b, INTERVALS));
    PartsLoseNothing(a, INTERVALS);
    PartsLoseNothing(b, INTERVALS);
  }

  /** The amount read off the two-unit display grows with the duration. */
  lemma DisplayIsMonotone(a: int, b: int)
    requires a <= b
    ensures ReadDisplay(Shown(a, GRANULARITY)).Some? && ReadDisplay(Shown(b, GRANULARITY)).Some?
    ensures Total(ReadDisplay(Shown(a, GRANULARITY)).value) <= Total(ReadDisplay(Shown(b, GRANULARITY)).value)
  {
    PartsUseTheirUnits(a, INTERVALS);
    PartsUseTheirUnits(b, INTERVALS);
    RenderReadsBack(First(Parts(a, INTERVALS), GRANULARITY));
    RenderReadsBack(First(Parts(b, INTERVALS), GRANULARITY));
    ShownSecondsMonotone(a, b, INTERVALS, GRANULARITY);
  }

  // ---------- the service's duration text ----------

  datatype Duration = Whole(seconds: int) | Stamp(text: string)

  /** `seconds, _ = text.split("s")`: exactly one 's', an integer before it. */
  function ParseSeconds(text: string): Option<int>
  {
    var pieces := Split(text, 's');
    if |pieces| != 2 then None else ParseInt(pieces[0])
  }

  /** The stamp has exactly one 's', and the text before it is the number `seconds`. */
  ghost predicate StampOf(stamp: string, seconds: int)
  {
    exists number, suffix :: 's' !in number && 's' !in suffix && stamp == number + "s" + suffix
                             && ParseInt(number) == Some(seconds)
  }

  /** Reading a stamp gives its number, and fails exactly when it is none. */
  lemma StampsRead(stamp: string, seconds: int)
    ensures ParseSeconds(stamp) == Some(seconds) <==> StampOf(stamp, seconds)
  {
    JoinSplit(stamp, 's');
    var pieces := Split(stamp, 's');
    if |pieces| == 2 {
      assert pieces[1..] == [pieces[1]];
      assert pieces[0] in pieces && pieces[1] in pieces;
      assert stamp == pieces[0] + "s" + pieces[1];
    }
    if StampOf(stamp, seconds) {
      var number, suffix :| 's' !in number && 's' !in suffix && stamp == number + "s" + suffix
                            && ParseInt(number) == Some(seconds);
      SplitFirst(number, 's', suffix);
      SplitWithout(suffix, 's');
      assert stamp == number + ['s'] + suffix;
    }
  }

  /** The display of a stamp's number; None is the ValueError of a text that is no stamp of any number. */
  method ChangeDurationToDhm(duration: string) returns (text: Option<string>)
    ensures text.None? <==> forall seconds :: !StampOf(duration, seconds)
    ensures forall seconds :: StampOf(duration, seconds) ==> text.Some? && Displays(text.value, seconds)
  {
    forall seconds
      ensures ParseSeconds(duration) == Some(seconds) <==> StampOf(duration, seconds)
    {
      StampsRead(duration, seconds);
    }
    match ParseSeconds(duration) {
      case Some(seconds) =>
        var shown := DisplayTime(seconds);
        DisplayMeaning(seconds);
        text := Some(shown);
      case None =>
        text := None;
    }
  }

  /** The seconds a duration stands for. */
  ghost predicate Means(duration: Duration, seconds: int)
  {
    match duration
    case Whole(n) => n == seconds
    case Stamp(stamp) => StampOf(stamp, seconds)
  }

  method MakeTimeToDhmsFormat(duration: Duration) returns (text: Option<string>)
    ensures text.None? <==> forall seconds :: !Means(duration, seconds)
    ensures forall seconds :: Means(duration, seconds) ==> text.Some? && Displays(text.value, seconds)
  {
    match duration {
      case Whole(seconds) =>
        var shown := DisplayTime(seconds);
        DisplayMeaning(seconds);
        assert Means(duration, seconds);
        text := Some(shown);
      case Stamp(stamp) =>
        text := ChangeDurationToDhm(stamp);
        assert forall seconds :: Means(duration, seconds) <==> StampOf(stamp, seconds);
    }
  }

  /** A stamp such as "600s" means its number, whatever follows the one 's'. */
  lemma StampOfSeconds(seconds: int, suffix: string)
    requires 's' !in suffix
    ensures ParseSeconds(IntText(seconds) + "s" + suffix) == Some(seconds)
  {
    var number := IntText(seconds);
    assert 's' !in number;
    ParseIntOfIntText(seconds);
    StampsRead(number + "s" + suffix, seconds);
  }
}
