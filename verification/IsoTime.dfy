/** Timestamps as the export writes them: ISO 8601 text that is compared as text. */
module IsoTime {

  /** A UTC datetime. */
  datatype DateTime = DateTime(year: nat, month: nat, day: nat, hour: nat, minute: nat, second: nat, micro: nat)

  predicate Valid(t: DateTime) {
    t.year < 10000 && t.month < 100 && t.day < 100 && t.hour < 100 && t.minute < 100 && t.second < 100 && t.micro < 1000000
  }

  /** Chronological order. */
  predicate Earlier(a: DateTime, b: DateTime) {
    a.year < b.year || (a.year == b.year && (a.month < b.month || (a.month == b.month && (a.day < b.day || (a.day == b.day &&
    (a.hour < b.hour || (a.hour == b.hour && (a.minute < b.minute || (a.minute == b.minute &&
    (a.second < b.second || (a.second == b.second && a.micro < b.micro)))))))))))
  }

  function Power(n: nat): nat {
    if n == 0 then 1 else 10 * Power(n - 1)
  }

  /** `value` in `width` decimal digits. */
  function Pad(value: nat, width: nat): (s: string)
    ensures |s| == width
  {
    if width == 0 then "" else Pad(value / 10, width - 1) + [('0' as int + value % 10) as char]
  }

  /** `isoformat()` of a UTC datetime: the fraction is left out when it is zero. */
  function Iso(t: DateTime): string {
    Pad(t.year, 4) + ("-" + (Pad(t.month, 2) + ("-" + (Pad(t.day, 2) + ("T" +
      (Pad(t.hour, 2) + (":" + (Pad(t.minute, 2) + (":" + (Pad(t.second, 2) + Fraction(t.micro)))))))))))
  }

  function Fraction(micro: nat): string {
    if micro == 0 then "+00:00" else "." + (Pad(micro, 6) + "+00:00")
  }

  /** The order of strings: by code point, a proper prefix first. */
  predicate TextLess(a: string, b: string) {
    if a == [] || b == [] then b != []
    else a[0] < b[0] || (a[0] == b[0] && TextLess(a[1..], b[1..]))
  }

  lemma {:induction false} LessBehindPrefix(p: string, q: string, a: string, b: string)
    requires |p| == |q|
    ensures TextLess(p + a, q + b) <==> (p != q && TextLess(p, q)) || (p == q && TextLess(a, b))
    decreases |p|
  {
    if p == [] {
      assert p + a == a && q + b == b;
    } else {
      assert (p + a)[1..] == p[1..] + a && (q + b)[1..] == q[1..] + b;
      assert p == q <==> p[0] == q[0] && p[1..] == q[1..] by {
        assert p == [p[0]] + p[1..] && q == [q[0]] + q[1..];
      }
      LessBehindPrefix(p[1..], q[1..], a, b);
    }
  }

  /** Digits of one width compare like the numbers. */
  lemma {:induction false} PadOrders(a: nat, b: nat, width: nat)
    requires a < Power(width) && b < Power(width)
    ensures Pad(a, width) == Pad(b, width) <==> a == b
    ensures Pad(a, width) != Pad(b, width) ==> (TextLess(Pad(a, width), Pad(b, width)) <==> a < b)
  {
    if width == 0 {
    } else {
      PadOrders(a / 10, b / 10, width - 1);
      var lastA, lastB := [('0' as int + a % 10) as char], [('0' as int + b % 10) as char];
      LessBehindPrefix(Pad(a / 10, width - 1), Pad(b / 10, width - 1), lastA, lastB);
      if Pad(a, width) == Pad(b, width) {
        assert Pad(a, width)[..width - 1] == Pad(a / 10, width - 1) && Pad(b, width)[..width - 1] == Pad(b / 10, width - 1);
        assert Pad(a, width)[width - 1] == lastA[0] && Pad(b, width)[width - 1] == lastB[0];
      }
    }
  }

  /** One field, its separator, and the rest. */
  lemma FieldOrders(a: nat, b: nat, width: nat, separator: string, restA: string, restB: string)
    requires a < Power(width) && b < Power(width)
    ensures TextLess(Pad(a, width) + (separator + restA), Pad(b, width) + (separator + restB)) <==>
      a < b || (a == b && TextLess(restA, restB))
  {
    PadOrders(a, b, width);
    LessBehindPrefix(Pad(a, width), Pad(b, width), separator + restA, separator + restB);
    LessBehindPrefix(separator, separator, restA, restB);
  }

  /** The offset of a whole second sorts before any fraction: '+' comes before '.'. */
  lemma FractionOrders(a: nat, b: nat)
    requires a < 1000000 && b < 1000000
    ensures TextLess(Fraction(a), Fraction(b)) <==> a < b
  {
    assert Power(6) == 1000000 by {
      assert Power(2) == 100 && Power(4) == 10000;
    }
    if a > 0 && b > 0 {
      LessBehindPrefix(".", ".", Pad(a, 6) + "+00:00", Pad(b, 6) + "+00:00");
      FieldOrders(a, b, 6, "+00:00", "", "");
      assert "+00:00" + "" == "+00:00";
    } else if a == 0 && b == 0 {
      LessBehindPrefix("+00:00", "+00:00", "", "");
      assert "+00:00" + "" == "+00:00";
    } else {
      assert Fraction(0)[0] == '+' && (a > 0 ==> Fraction(a)[0] == '.') && (b > 0 ==> Fraction(b)[0] == '.');
    }
  }

  /** Sorting timestamps as text sorts them in time, whether or not they carry a fraction. */
  lemma TextOrderIsChronological(a: DateTime, b: DateTime)
    requires Valid(a) && Valid(b)
    ensures TextLess(Iso(a), Iso(b)) <==> Earlier(a, b)
  {
    assert Power(2) == 100 && Power(4) == 10000;
    var a6, b6 := Pad(a.second, 2) + Fraction(a.micro), Pad(b.second, 2) + Fraction(b.micro);
    FractionOrders(a.micro, b.micro);
    FieldOrders(a.second, b.second, 2, "", Fraction(a.micro), Fraction(b.micro));
    assert "" + Fraction(a.micro) == Fraction(a.micro) && "" + Fraction(b.micro) == Fraction(b.micro);
    var a5, b5 := Pad(a.minute, 2) + (":" + a6), Pad(b.minute, 2) + (":" + b6);
    FieldOrders(a.minute, b.minute, 2, ":", a6, b6);
    var a4, b4 := Pad(a.hour, 2) + (":" + a5), Pad(b.hour, 2) + (":" + b5);
    FieldOrders(a.hour, b.hour, 2, ":", a5, b5);
    var a3, b3 := Pad(a.day, 2) + ("T" + a4), Pad(b.day, 2) + ("T" + b4);
    FieldOrders(a.day, b.day, 2, "T", a4, b4);
    var a2, b2 := Pad(a.month, 2) + ("-" + a3), Pad(b.month, 2) + ("-" + b3);
    FieldOrders(a.month, b.month, 2, "-", a3, b3);
    FieldOrders(a.year, b.year, 4, "-", a2, b2);
  }
}
