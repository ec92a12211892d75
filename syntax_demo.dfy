/*
 * The parts of the syntax demo that have behaviour to state: `varargs_demo`,
 * the `uppercase_decorator`, the `nested_generator` that delegates to
 * `countdown`, and the `Circle` class with its validating `radius` setter.
 * `countdown` here is the same generator as the advanced-concepts one and
 * is modelled once, there.
 */
module SyntaxDemo {
  import opened Builtins
  import AdvancedConcepts

  /** `varargs_demo(a, b, *args, **kwargs)`: the extra positional and keyword
      arguments are only printed, never used. */
  function VarargsDemo(a: int, b: int, args: seq<real>, kwargs: map<string, string>): int {
    a + b
  }

  /** The result depends on `a` and `b` alone, and the demo call returns 8. */
  lemma VarargsIgnoresExtras(a: int, b: int, args: seq<real>, kwargs: map<string, string>,
                             otherArgs: seq<real>, otherKwargs: map<string, string>)
    ensures VarargsDemo(a, b, args, kwargs) == VarargsDemo(a, b, otherArgs, otherKwargs)
    ensures VarargsDemo(3, 5, [7.0, 9.5], map["key" := "value", "flag" := "True"]) == 8
  {
  }

  /** The decorator `uppercase_decorator`: the wrapped function's result, upper-cased. */
  function UppercaseDecorator<A>(f: A -> string): (wrapped: A -> string) {
    x => Upper(f(x))
  }

  /** `greet(name)` as decorated by `@uppercase_decorator`. */
  function Greet(name: string): (r: string)
    ensures |r| == |name| + 7
    ensures r[..7] == "HELLO, "
    ensures forall i :: 0 <= i < |name| ==> r[7 + i] == UpperChar(name[i])
  {
    assert UppercaseDecorator(AdvancedConcepts.Hello)(name) == Upper(AdvancedConcepts.Hello(name));
    UpperAppend("Hello, ", name);
    UppercaseDecorator(AdvancedConcepts.Hello)(name)
  }

  /** Upper-casing the decorated greeting again changes nothing. */
  lemma GreetIsUpperCase(name: string)
    ensures Upper(Greet(name)) == Greet(name)
  {
    UpperIdempotent(AdvancedConcepts.Hello(name));
  }

  /** The two decorators agree: `emphasize` is `uppercase_decorator` with the
      bangs added around it. */
  lemma EmphasizeIsUppercaseWithBangs(name: string)
    ensures AdvancedConcepts.Greeting(name) == "!!! " + Greet(name) + " !!!"
  {
  }

  /** `nested_generator()`: `yield from countdown(3)`. */
  function NestedGenerator(): (r: seq<int>)
    ensures r == [3, 2, 1]
  {
    AdvancedConcepts.CountdownFrom(3)
  }

  /** A circle whose `radius` property refuses negative values. */
  class Circle {
    var radius: real

    /** `Circle(radius)` stores the radius as given: it does not validate it. */
    constructor (radius: real)
      ensures this.radius == radius
    {
      this.radius := radius;
    }

    /** The `radius` setter: a negative value raises `ValueError` and changes
        nothing; any other value becomes the radius. */
    method SetRadius(value: real) returns (outcome: Outcome)
      modifies this
      ensures value < 0.0 ==> outcome == ValueError("Radius cannot be negative.") && radius == old(radius)
      ensures value >= 0.0 ==> outcome == Ok && radius == value
      ensures old(radius) >= 0.0 ==> radius >= 0.0
    {
      if value < 0.0 {
        return ValueError("Radius cannot be negative.");
      }
      radius := value;
      outcome := Ok;
    }

    /** The class method `unit_circle()`: a new circle of radius 1.0. */
    static method UnitCircle() returns (c: Circle)
      ensures fresh(c) && c.radius == 1.0
    {
      c := new Circle(1.0);
    }
  }

  /** The class demo: radius 2.5, then 3.5 after the setter, and 1.0 for the unit circle. */
  method CircleDemo() returns (initialRadius: real, newRadius: real, unitRadius: real)
    ensures initialRadius == 2.5 && newRadius == 3.5 && unitRadius == 1.0
  {
    var c := new Circle(2.5);
    initialRadius := c.radius;
    var _ := c.SetRadius(3.5);
    newRadius := c.radius;
    var unit := Circle.UnitCircle();
    unitRadius := unit.radius;
  }
}
