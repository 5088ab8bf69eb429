// The `getWeather` tool: a synthetic reading built from four uniform random
// draws. Each `Math.floor(Math.random() * n)` is modelled as a draw `k`
// with `0 <= k < n`, supplied by the caller in the order the tool makes them.
module Weather {

  import opened Wrappers
  import opened Lexical
  import Decimal

  const Conditions: seq<string> := ["sunny", "cloudy", "rainy", "partly cloudy"]

  const CelsiusUnit: string := "\U{00B0}C"
  const PercentUnit: string := "%"
  const SpeedUnit: string := " km/h"

  /** The four draws, in the order the tool makes them. */
  datatype Draws = Draws(condition: nat, temperature: nat, humidity: nat, wind: nat)

  /** What `Math.floor(Math.random() * n)` guarantees of each draw. */
  predicate ValidDraws(d: Draws)
  {
    d.condition < |Conditions| && d.temperature < 30 && d.humidity < 40 && d.wind < 20
  }

  /** The record the tool returns; all fields are text. */
  datatype Reading = Reading(location: string, temperature: string, condition: string,
                             humidity: string, windSpeed: string)

  /** The integer written in front of `unit`, if `text` is a numeral followed
      by exactly that unit. */
  function Quantity(text: string, unit: string): Option<nat>
  {
    if EndsWith(text, unit) && |text| > |unit| && Decimal.AllDigits(text[..|text| - |unit|]) then
      Some(Decimal.Parse(text[..|text| - |unit|]))
    else None
  }

  /** A number rendered and followed by `unit` reads back as that number. */
  lemma QuantityOfRendered(n: nat, unit: string)
    ensures Quantity(Decimal.Render(n) + unit, unit) == Some(n)
  {
    var t := Decimal.Render(n) + unit;
    assert t[..|t| - |unit|] == Decimal.Render(n);
    assert t[|t| - |unit|..] == unit;
    Decimal.ParseRender(n);
  }

  /** `getWeather.execute({ location })`. */
  function Simulate(location: string, d: Draws): (r: Reading)
    requires ValidDraws(d)
    ensures r.location == location
    ensures r.condition in Conditions
    ensures Quantity(r.temperature, CelsiusUnit).Some?
    ensures 10 <= Quantity(r.temperature, CelsiusUnit).value <= 39
    ensures Quantity(r.humidity, PercentUnit).Some?
    ensures 40 <= Quantity(r.humidity, PercentUnit).value <= 79
    ensures Quantity(r.windSpeed, SpeedUnit).Some?
    ensures 5 <= Quantity(r.windSpeed, SpeedUnit).value <= 24
  {
    var temperature := d.temperature + 10;
    QuantityOfRendered(temperature, CelsiusUnit);
    QuantityOfRendered(d.humidity + 40, PercentUnit);
    QuantityOfRendered(d.wind + 5, SpeedUnit);
    Reading(location,
            Decimal.Render(temperature) + CelsiusUnit,
            Conditions[d.condition],
            Decimal.Render(d.humidity + 40) + PercentUnit,
            Decimal.Render(d.wind + 5) + SpeedUnit)
  }

  /** The temperature range is exactly 10..39: every value in it can be
      produced and 40, although the source comment names it, never is. */
  lemma TemperatureRangeIsExact(location: string, t: nat)
    ensures (exists d :: ValidDraws(d) && Quantity(Simulate(location, d).temperature, CelsiusUnit) == Some(t))
            <==> 10 <= t <= 39
  {
    if 10 <= t <= 39 {
      var d := Draws(0, t - 10, 0, 0);
      QuantityOfRendered(t, CelsiusUnit);
      assert Simulate(location, d).temperature == Decimal.Render(t) + CelsiusUnit;
      assert ValidDraws(d) && Quantity(Simulate(location, d).temperature, CelsiusUnit) == Some(t);
    }
  }

  /** The humidity range is exactly 40..79. */
  lemma HumidityRangeIsExact(location: string, h: nat)
    ensures (exists d :: ValidDraws(d) && Quantity(Simulate(location, d).humidity, PercentUnit) == Some(h))
            <==> 40 <= h <= 79
  {
    if 40 <= h <= 79 {
      var d := Draws(0, 0, h - 40, 0);
      QuantityOfRendered(h, PercentUnit);
      assert Simulate(location, d).humidity == Decimal.Render(h) + PercentUnit;
      assert ValidDraws(d) && Quantity(Simulate(location, d).humidity, PercentUnit) == Some(h);
    }
  }

  /** The wind-speed range is exactly 5..24. */
  lemma WindRangeIsExact(location: string, w: nat)
    ensures (exists d :: ValidDraws(d) && Quantity(Simulate(location, d).windSpeed, SpeedUnit) == Some(w))
            <==> 5 <= w <= 24
  {
    if 5 <= w <= 24 {
      var d := Draws(0, 0, 0, w - 5);
      QuantityOfRendered(w, SpeedUnit);
      assert Simulate(location, d).windSpeed == Decimal.Render(w) + SpeedUnit;
      assert ValidDraws(d) && Quantity(Simulate(location, d).windSpeed, SpeedUnit) == Some(w);
    }
  }

  /** Every one of the four conditions, and nothing else, can be reported. */
  lemma ConditionsAreExact(location: string, c: string)
    ensures (exists d :: ValidDraws(d) && Simulate(location, d).condition == c) <==> c in Conditions
  {
    if c in Conditions {
      var k :| 0 <= k < |Conditions| && Conditions[k] == c;
      var d := Draws(k, 0, 0, 0);
      assert ValidDraws(d) && Simulate(location, d).condition == c;
    }
  }
}
