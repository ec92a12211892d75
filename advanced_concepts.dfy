/*
 * The parts of the advanced-concepts demo that have behaviour to state: the
 * `Rectangle` class with validating property setters, the `emphasize`
 * decorator, and the `countdown` and `squares_up_to` generators (a generator
 * is modelled by the sequence of values it yields).
 */
module AdvancedConcepts {
  import opened Builtins

  /** A rectangle whose `width` and `height` properties refuse negative values. */
  class Rectangle {
    var width: real
    var height: real

    /** `Rectangle(width, height)` stores both sides as given: it does not validate them. */
    constructor (width: real, height: real)
      ensures this.width == width && this.height == height
    {
      this.width := width;
      this.height := height;
    }

    /** Both sides are non-negative, which every successful setter call keeps. */
    predicate NonNegative()
      reads this
    {
      width >= 0.0 && height >= 0.0
    }

    /** The read-only `area` property, computed from the current sides. */
    function Area(): (a: real)
      reads this
      ensures NonNegative() ==> a >= 0.0
      ensures width == 0.0 || height == 0.0 ==> a == 0.0
    {
      width * height
    }

    /** The `width` setter: a negative value raises `ValueError` and changes
        nothing; any other value replaces the width and only the width. */
    method SetWidth(value: real) returns (outcome: Outcome)
      modifies this
      ensures value < 0.0 ==> outcome == ValueError("Width cannot be negative.") && width == old(width)
      ensures value >= 0.0 ==> outcome == Ok && width == value
      ensures height == old(height)
      ensures old(NonNegative()) ==> NonNegative()
    {
      if value < 0.0 {
        return ValueError("Width cannot be negative.");
      }
      width := value;
      outcome := Ok;
    }

    /** The `height` setter, symmetric to the width setter. */
    method SetHeight(value: real) returns (outcome: Outcome)
      modifies this
      ensures value < 0.0 ==> outcome == ValueError("Height cannot be negative.") && height == old(height)
      ensures value >= 0.0 ==> outcome == Ok && height == value
      ensures width == old(width)
      ensures old(NonNegative()) ==> NonNegative()
    {
      if value < 0.0 {
        return ValueError("Height cannot be negative.");
      }
      height := value;
      outcome := Ok;
    }
  }

  /** The property-decorator demo: a 3 by 4 rectangle has area 12, and 20
      once its width is set to 5. */
  method PropertyDemo() returns (initialArea: real, newWidth: real, updatedArea: real)
    ensures initialArea == 12.0 && newWidth == 5.0 && updatedArea == 20.0
  {
    var rect := new Rectangle(3.0, 4.0);
    initialArea := rect.Area();
    var _ := rect.SetWidth(5.0);
    newWidth := rect.width;
    updatedArea := rect.Area();
  }

  /** The decorator `emphasize`: the wrapped function's result, upper-cased,
      between "!!! " and " !!!". */
  function Emphasize<A>(f: A -> string): (wrapped: A -> string) {
    x => "!!! " + Upper(f(x)) + " !!!"
  }

  /** The undecorated body of `greeting` (and of `greet` in the syntax demo). */
  function Hello(name: string): string {
    "Hello, " + name
  }

  /** `greeting(name)` as decorated by `@emphasize`. */
  function Greeting(name: string): (r: string)
    ensures |r| == |name| + 15
    ensures r[..11] == "!!! HELLO, " && r[|r| - 4..] == " !!!"
    ensures forall i :: 0 <= i < |name| ==> r[11 + i] == UpperChar(name[i])
  {
    assert Emphasize(Hello)(name) == "!!! " + Upper(Hello(name)) + " !!!";
    UpperAppend("Hello, ", name);
    Emphasize(Hello)(name)
  }

  /** The demo's call greets Alice loudly. */
  lemma GreetingAlice()
    ensures Greeting("Alice") == "!!! HELLO, ALICE !!!"
  {
    var r, name := Greeting("Alice"), "Alice";
    assert r[11 + 0] == UpperChar(name[0]) && r[11 + 1] == UpperChar(name[1]) && r[11 + 2] == UpperChar(name[2])
      && r[11 + 3] == UpperChar(name[3]) && r[11 + 4] == UpperChar(name[4]);
    assert r[..11] == "!!! HELLO, " && r[16..] == " !!!";
  }

  /** The values the generator `countdown(n)` yields, one step of its loop at a time. */
  function CountdownFrom(n: int): seq<int>
    decreases n
  {
    if n <= 0 then [] else [n] + CountdownFrom(n - 1)
  }

  /** `countdown(n)` yields n, n - 1, ..., 1: n values, all positive and strictly
      decreasing, and nothing at all when n is not positive. */
  lemma {:induction false} CountdownFromValues(n: int)
    ensures |CountdownFrom(n)| == if n > 0 then n else 0
    ensures forall i :: 0 <= i < |CountdownFrom(n)| ==> CountdownFrom(n)[i] == n - i
    ensures forall i :: 0 <= i < |CountdownFrom(n)| ==> CountdownFrom(n)[i] >= 1
    ensures forall i, j :: 0 <= i < j < |CountdownFrom(n)| ==> CountdownFrom(n)[i] > CountdownFrom(n)[j]
    decreases n
  {
    if n > 0 {
      CountdownFromValues(n - 1);
      var r := CountdownFrom(n);
      assert forall i :: 1 <= i < |r| ==> r[i] == CountdownFrom(n - 1)[i - 1];
    }
  }

  /** The generator `countdown(n)`: its `while` loop, collecting what it yields. */
  method Countdown(n: int) returns (yielded: seq<int>)
    ensures yielded == CountdownFrom(n)
  {
    yielded := [];
    var k := n;
    while k > 0
      invariant yielded + CountdownFrom(k) == CountdownFrom(n)
      decreases k
    {
      assert CountdownFrom(k) == [k] + CountdownFrom(k - 1);
      yielded := yielded + [k];
      k := k - 1;
    }
  }

  /** The generator expression `(i * i for i in range(n + 1))`. */
  function SquaresUpTo(n: int): seq<int> {
    seq(if n >= 0 then n + 1 else 0, i => i * i)
  }

  /** `squares_up_to(n)` yields n + 1 squares in increasing order, none when n < 0. */
  lemma SquaresUpToIncreasing(n: int)
    ensures |SquaresUpTo(n)| == if n >= 0 then n + 1 else 0
    ensures forall i, j :: 0 <= i < j < |SquaresUpTo(n)| ==> SquaresUpTo(n)[i] < SquaresUpTo(n)[j]
  {
    var r := SquaresUpTo(n);
    forall i, j | 0 <= i < j < |r| ensures r[i] < r[j] {
      SquareLess(i, j);
    }
  }

  /** Squaring is strictly increasing on the naturals. */
  lemma SquareLess(i: int, j: int)
    requires 0 <= i < j
    ensures i * i < j * j
  {
    calc {
      i * i;
    <= i * j;
    < j * j;
    }
  }

  /** One more step of `range` yields one more square at the end. */
  lemma SquaresUpToStep(n: int)
    requires n >= -1
    ensures SquaresUpTo(n + 1) == SquaresUpTo(n) + [(n + 1) * (n + 1)]
  {
    var longer, shorter := SquaresUpTo(n + 1), SquaresUpTo(n) + [(n + 1) * (n + 1)];
    assert |longer| == |shorter|;
    forall i | 0 <= i < |longer| ensures longer[i] == shorter[i] {
      if i <= n {
        assert shorter[i] == SquaresUpTo(n)[i];
      }
    }
  }
}
