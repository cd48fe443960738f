/** The fixed-width names of state snapshots sort as their times do. */
module Timestamps {
  import opened Text

  // A UTC time by its calendar fields, down to nanoseconds.
  datatype Civil = Civil(year: nat, month: nat, day: nat, hour: nat, minute: nat, second: nat, nano: nat)

  /** Fields a four-digit-year UTC time can have. */
  predicate ValidTime(t: Civil) {
    t.year < 10000 && t.month < 100 && t.day < 100 && t.hour < 100 && t.minute < 100 && t.second < 100 && t.nano < 1_000_000_000
  }

  function Digit(n: nat): char
    requires n < 10
  {
    '0' + n as char
  }

  /** n in decimal with leading zeros. */
  function Digits(n: nat, width: nat): (s: string)
    ensures |s| == width
  {
    if width == 0 then "" else Digits(n / 10, width - 1) + [Digit(n % 10)]
  }

  function Power(width: nat): nat {
    if width == 0 then 1 else 10 * Power(width - 1)
  }

  // A decimal field and the literal text after it.
  datatype Field = Field(value: nat, width: nat, after: string)

  function Render(fields: seq<Field>): string {
    if fields == [] then "" else Digits(fields[0].value, fields[0].width) + (fields[0].after + Render(fields[1..]))
  }

  /** The layout 20060102T150405.000000000Z followed by the suffix. */
  function Fields(t: Civil): seq<Field> {
    [Field(t.year, 4, ""), Field(t.month, 2, ""), Field(t.day, 2, "T"), Field(t.hour, 2, ""), Field(t.minute, 2, ""),
     Field(t.second, 2, "."), Field(t.nano, 9, "Z.tfstate")]
  }

  function Name(t: Civil): string {
    Render(Fields(t))
  }

  /** The order of time: years first, nanoseconds last. */
  predicate Earlier(a: Civil, b: Civil) {
    a.year < b.year || (a.year == b.year && (
      a.month < b.month || (a.month == b.month && (
        a.day < b.day || (a.day == b.day && (
          a.hour < b.hour || (a.hour == b.hour && (
            a.minute < b.minute || (a.minute == b.minute && (
              a.second < b.second || (a.second == b.second && a.nano < b.nano)))))))))))
  }

  predicate SameLayout(a: seq<Field>, b: seq<Field>) {
    && |a| == |b|
    && forall i :: 0 <= i < |a| ==>
         && a[i].width == b[i].width && a[i].after == b[i].after
         && a[i].value < Power(a[i].width) && b[i].value < Power(b[i].width)
  }

  /** Comparing field by field. */
  predicate FieldsLess(a: seq<Field>, b: seq<Field>)
    decreases |a|
  {
    a != [] && b != [] &&
    (a[0].value < b[0].value || (a[0].value == b[0].value && FieldsLess(a[1..], b[1..])))
  }

  lemma {:induction false} LessAfterSame(same: string, a: string, b: string)
    ensures Less(same + a, same + b) <==> Less(a, b)
    decreases |same|
  {
    if same == [] {
      assert same + a == a && same + b == b;
    } else {
      assert (same + a)[1..] == same[1..] + a && (same + b)[1..] == same[1..] + b;
      LessAfterSame(same[1..], a, b);
    }
  }

  lemma {:induction false} LessBeforeAny(a: string, b: string, x: string, y: string)
    requires |a| == |b| && Less(a, b)
    ensures Less(a + x, b + y)
    decreases |a|
  {
    assert (a + x)[1..] == a[1..] + x && (b + y)[1..] == b[1..] + y;
    if a[0] == b[0] {
      LessBeforeAny(a[1..], b[1..], x, y);
    }
  }

  /** Fixed-width decimals compare as the numbers they spell. */
  lemma {:induction false} DigitsCompare(n: nat, m: nat, width: nat)
    requires n < m < Power(width)
    ensures Less(Digits(n, width), Digits(m, width))
    decreases width
  {
    if n / 10 < m / 10 {
      DigitsCompare(n / 10, m / 10, width - 1);
      LessBeforeAny(Digits(n / 10, width - 1), Digits(m / 10, width - 1), [Digit(n % 10)], [Digit(m % 10)]);
    } else {
      LessAfterSame(Digits(n / 10, width - 1), [Digit(n % 10)], [Digit(m % 10)]);
    }
  }

  lemma {:induction false} RenderCompares(a: seq<Field>, b: seq<Field>)
    requires SameLayout(a, b) && FieldsLess(a, b)
    ensures Less(Render(a), Render(b))
    decreases |a|
  {
    var restA, restB := a[0].after + Render(a[1..]), b[0].after + Render(b[1..]);
    if a[0].value < b[0].value {
      DigitsCompare(a[0].value, b[0].value, a[0].width);
      LessBeforeAny(Digits(a[0].value, a[0].width), Digits(b[0].value, b[0].width), restA, restB);
    } else {
      RenderCompares(a[1..], b[1..]);
      LessAfterSame(a[0].after, Render(a[1..]), Render(b[1..]));
      LessAfterSame(Digits(a[0].value, a[0].width), restA, restB);
    }
  }

  lemma FieldStep(a: seq<Field>, b: seq<Field>, i: nat)
    requires i < |a| == |b|
    ensures FieldsLess(a[i..], b[i..])
        <==> a[i].value < b[i].value || (a[i].value == b[i].value && FieldsLess(a[i + 1..], b[i + 1..]))
  {
    assert a[i..][1..] == a[i + 1..] && b[i..][1..] == b[i + 1..];
  }

  lemma EarlierByFields(a: Civil, b: Civil)
    ensures Earlier(a, b) <==> FieldsLess(Fields(a), Fields(b))
  {
    var x, y := Fields(a), Fields(b);
    assert x[0..] == x && y[0..] == y;
    forall i | 0 <= i < 7
      ensures FieldsLess(x[i..], y[i..]) <==> x[i].value < y[i].value || (x[i].value == y[i].value && FieldsLess(x[i + 1..], y[i + 1..]))
    {
      FieldStep(x, y, i);
    }
    assert !FieldsLess(x[7..], y[7..]);
    hide FieldsLess;
    assert FieldsLess(x[6..], y[6..]) <==> a.nano < b.nano;
    assert FieldsLess(x[5..], y[5..]) <==> a.second < b.second || (a.second == b.second && FieldsLess(x[6..], y[6..]));
    assert FieldsLess(x[4..], y[4..]) <==> a.minute < b.minute || (a.minute == b.minute && FieldsLess(x[5..], y[5..]));
    assert FieldsLess(x[3..], y[3..]) <==> a.hour < b.hour || (a.hour == b.hour && FieldsLess(x[4..], y[4..]));
    assert FieldsLess(x[2..], y[2..]) <==> a.day < b.day || (a.day == b.day && FieldsLess(x[3..], y[3..]));
    assert FieldsLess(x[1..], y[1..]) <==> a.month < b.month || (a.month == b.month && FieldsLess(x[2..], y[2..]));
  }

  /** The number a decimal spells. */
  function Spelled(s: string): int {
    if s == "" then 0 else 10 * Spelled(s[..|s| - 1]) + (s[|s| - 1] as int - '0' as int)
  }

  lemma {:induction false} DigitsSpell(n: nat, width: nat)
    requires n < Power(width)
    ensures Spelled(Digits(n, width)) == n
    decreases width
  {
    if width > 0 {
      DigitsSpell(n / 10, width - 1);
    }
  }

  lemma RenderField(fields: seq<Field>, i: nat)
    requires i < |fields|
    ensures Render(fields[i..]) == Digits(fields[i].value, fields[i].width) + (fields[i].after + Render(fields[i + 1..]))
  {
    assert fields[i..][1..] == fields[i + 1..];
  }

  lemma NoText(s: string)
    ensures "" + s == s
  {}

  /** The layout of a name, part by part. */
  lemma NameLayout(t: Civil)
    ensures Name(t) == Digits(t.year, 4) + (Digits(t.month, 2) + (Digits(t.day, 2) + ("T" + (Digits(t.hour, 2) + (Digits(t.minute, 2)
                       + (Digits(t.second, 2) + ("." + (Digits(t.nano, 9) + "Z.tfstate"))))))))
  {
    var f := Fields(t);
    forall i | 0 <= i < 7 ensures Render(f[i..]) == Digits(f[i].value, f[i].width) + (f[i].after + Render(f[i + 1..])) {
      RenderField(f, i);
    }
    assert f[0..] == f && Render(f[7..]) == "";
    hide Render, Digits;
    assert "Z.tfstate" + "" == "Z.tfstate";
    assert Render(f[6..]) == Digits(t.nano, 9) + "Z.tfstate";
    NoText(Render(f[5..]));
    NoText(Render(f[4..]));
    NoText(Render(f[2..]));
    NoText(Render(f[1..]));
  }

  lemma Powers()
    ensures Power(2) == 100 && Power(4) == 10000 && Power(9) == 1_000_000_000
  {
    assert Power(1) == 10 && Power(2) == 100 && Power(3) == 1000 && Power(4) == 10000;
    assert Power(5) == 100000 && Power(6) == 1_000_000 && Power(7) == 10_000_000 && Power(8) == 100_000_000;
  }

  /** Text order of snapshot names is time order. */
  lemma NamesSortByTime(a: Civil, b: Civil)
    requires ValidTime(a) && ValidTime(b)
    ensures Less(Name(a), Name(b)) <==> Earlier(a, b)
    ensures Name(a) == Name(b) <==> a == b
  {
    Powers();
    EarlierByFields(a, b);
    EarlierByFields(b, a);
    assert Earlier(a, b) || Earlier(b, a) || a == b;
    hide Power, Render, FieldsLess, Earlier;
    assert SameLayout(Fields(a), Fields(b)) && SameLayout(Fields(b), Fields(a));
    if Earlier(a, b) {
      RenderCompares(Fields(a), Fields(b));
    } else if Earlier(b, a) {
      RenderCompares(Fields(b), Fields(a));
    }
    LessTrichotomy(Name(a), Name(b));
  }

  const SUFFIX: string := ".tfstate"

  lemma SuffixStays(before: string, s: string, suffix: string)
    requires HasSuffix(s, suffix)
    ensures HasSuffix(before + s, suffix)
  {
    assert (before + s)[|before + s| - |suffix|..] == s[|s| - |suffix|..];
  }

  lemma {:induction false} RenderEnds(fields: seq<Field>, suffix: string)
    requires fields != [] && HasSuffix(fields[|fields| - 1].after, suffix)
    ensures HasSuffix(Render(fields), suffix)
    decreases |fields|
  {
    hide HasSuffix;
    var digits, after, rest := Digits(fields[0].value, fields[0].width), fields[0].after, Render(fields[1..]);
    if |fields| == 1 {
      assert after + rest == after;
      SuffixStays(digits, after, suffix);
    } else {
      RenderEnds(fields[1..], suffix);
      SuffixStays(after, rest, suffix);
      SuffixStays(digits, after + rest, suffix);
    }
  }

  lemma NameEnds(t: Civil)
    ensures HasSuffix(Name(t), SUFFIX)
  {
    assert "Z.tfstate"[1..] == SUFFIX;
    RenderEnds(Fields(t), SUFFIX);
  }

  lemma {:induction false} DigitsHaveNoSlash(n: nat, width: nat)
    ensures '/' !in Digits(n, width)
  {
    if width > 0 {
      DigitsHaveNoSlash(n / 10, width - 1);
    }
  }

  lemma {:induction false} RenderHasNoSlash(fields: seq<Field>)
    requires forall i :: 0 <= i < |fields| ==> '/' !in fields[i].after
    ensures '/' !in Render(fields)
  {
    if fields != [] {
      DigitsHaveNoSlash(fields[0].value, fields[0].width);
      RenderHasNoSlash(fields[1..]);
    }
  }

  lemma NameHasNoSlash(t: Civil)
    ensures '/' !in Name(t)
  {
    RenderHasNoSlash(Fields(t));
  }
}
