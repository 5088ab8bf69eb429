// The `calculate` tool: pick the percentage path, the arithmetic path or the
// fixed error record. JavaScript evaluation of the sanitized text and all
// floating-point work are supplied from outside as total functions.
module Calculator {

  import opened Wrappers
  import opened Lexical
  import Sanitizer
  import PercentPattern

  /** The numeric work the tool delegates to the JavaScript runtime. */
  datatype Numerics = Numerics(
    // Running `"use strict"; return (<text>)` and converting the value with
    // `result.toString()`; `None` when either throws. For every value the
    // sanitized text can produce (a number, a string or a regular expression)
    // this is also the text of `${result}`.
    evaluate: string -> Option<string>,
    // `${Number.parseFloat(lexeme)}`, the display of a captured numeral.
    show: string -> string,
    // `((parseFloat(p) / 100) * parseFloat(a)).toFixed(2)`.
    percentOf: (string, string) -> string)

  /** The record every call of the tool returns. */
  datatype Outcome = Outcome(expression: string, result: string, explanation: string)

  const ErrorResult: string := "Error"
  const ErrorExplanation: string := "Could not evaluate the expression"

  function ErrorOutcome(expression: string): Outcome
  {
    Outcome(expression, ErrorResult, ErrorExplanation)
  }

  /** The percentage path for the numerals `p` and `a`. */
  function PercentOutcome(expression: string, p: string, a: string, num: Numerics): Outcome
  {
    var result := num.percentOf(p, a);
    Outcome(expression, result, num.show(p) + "% of " + num.show(a) + " = " + result)
  }

  /** The arithmetic path: evaluate the sanitized text; a throw becomes the
      error record. The explanation repeats the original expression. */
  function ArithmeticOutcome(expression: string, num: Numerics): Outcome
  {
    match num.evaluate(Sanitizer.Sanitize(expression))
    case None => ErrorOutcome(expression)
    case Some(v) => Outcome(expression, v, expression + " = " + v)
  }

  /** `calculate.execute({ expression })`. */
  function Calculate(expression: string, num: Numerics): (r: Outcome)
    ensures r.expression == expression
    ensures r == ErrorOutcome(expression) || EndsWith(r.explanation, " = " + r.result)
  {
    var percentMatch := if '%' in expression then PercentPattern.Recognize(expression) else None;
    match percentMatch
    case Some(m) =>
      PercentPattern.RecognizeSound(expression);
      var r := PercentOutcome(expression, PercentPattern.Percentage(expression, m),
                              PercentPattern.Amount(expression, m), num);
      assert r.explanation == (num.show(PercentPattern.Percentage(expression, m)) + "% of "
                               + num.show(PercentPattern.Amount(expression, m))) + (" = " + r.result);
      r
    case None =>
      var r := ArithmeticOutcome(expression, num);
      if r != ErrorOutcome(expression) then
        assert r.explanation == expression + (" = " + r.result);
        r
      else r
  }

  /** When the text contains the percentage pattern, the outcome is the
      percentage record built from the leftmost occurrence, with the longest
      second numeral at that position. The explanation always reads
      `<p>% of <a> = <r>`, whichever keyword and letter case the text used. */
  lemma PercentPathTakesLeftmostOccurrence(expression: string, num: Numerics,
                                           i: nat, pe: nat, ks: nat, am: nat, ae: nat)
    requires PercentPattern.OccursAt(expression, i, pe, ks, am, ae)
    requires forall i': nat, pe': nat, ks': nat, am': nat, ae': nat ::
               PercentPattern.OccursAt(expression, i', pe', ks', am', ae') ==> i <= i' && (i' == i ==> ae' <= ae)
    ensures var r := Calculate(expression, num);
      && r.result == num.percentOf(expression[i..pe], expression[am..ae])
      && r.explanation == num.show(expression[i..pe]) + "% of " + num.show(expression[am..ae]) + " = " + r.result
  {
    PercentPattern.RecognizeComplete(expression, i, pe, ks, am, ae);
    PercentPattern.RecognizeSound(expression);
    var m := PercentPattern.Recognize(expression).value;
    assert m.start == i && m.amountEnd == ae;
    assert '%' in expression by {
      assert expression[pe] == '%';
    }
  }

  /** Without an occurrence of the pattern, whether or not a percent sign is
      present, control falls through to arithmetic on the sanitized text,
      which holds no percent sign; a throw there yields exactly the error
      record and nothing propagates. */
  lemma ArithmeticPathWithoutPattern(expression: string, num: Numerics)
    requires !PercentPattern.Contains(expression)
    ensures var r := Calculate(expression, num);
      && '%' !in Sanitizer.Sanitize(expression)
      && (num.evaluate(Sanitizer.Sanitize(expression)).None? ==>
            r.result == ErrorResult && r.explanation == ErrorExplanation)
      && (num.evaluate(Sanitizer.Sanitize(expression)).Some? ==>
            var v := num.evaluate(Sanitizer.Sanitize(expression)).value;
            r.result == v && r.explanation == expression + " = " + v)
  {
  }

  /** The percentage path is never taken for a text without `%`. */
  lemma NoPercentSignMeansArithmetic(expression: string, num: Numerics)
    requires '%' !in expression
    ensures Calculate(expression, num) == ArithmeticOutcome(expression, num)
  {
  }

  /** A worked case: in `15% ON 45.50` the upper-case `ON` is recognised, the
      numerals `15` (`s[0..2]`) and `45.50` (`s[7..12]`) are captured, and the
      explanation still says `of`. */
  lemma UpperCaseOnExample(s: string, num: Numerics)
    requires s == "15% ON 45.50"
    ensures var r := Calculate(s, num);
      && r.result == num.percentOf(s[0..2], s[7..12])
      && r.explanation == num.show(s[0..2]) + "% of " + num.show(s[7..12]) + " = " + r.result
  {
    ExampleOccurrence(s);
    forall i': nat, pe': nat, ks': nat, am': nat, ae': nat | PercentPattern.OccursAt(s, i', pe', ks', am', ae')
      ensures 0 <= i' && (i' == 0 ==> ae' <= 12)
    {
    }
    PercentPathTakesLeftmostOccurrence(s, num, 0, 2, 4, 7, 12);
  }

  lemma ExampleOccurrence(s: string)
    requires s == "15% ON 45.50"
    ensures PercentPattern.OccursAt(s, 0, 2, 4, 7, 12)
  {
  }
}
