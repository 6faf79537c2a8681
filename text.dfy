/**
 * JavaScript's `String.prototype.split(' ')`: the string cut at every single
 * space, so that consecutive, leading or trailing spaces give empty fields.
 */
module Text {

  /** The fields of `s` between single spaces, in order. */
  function Split(s: string): (r: seq<string>)
    ensures |r| >= 1
    ensures forall i :: 0 <= i < |r| ==> ' ' !in r[i]
  {
    if s == [] then [""]
    else
      var rest := Split(s[1..]);
      if s[0] == ' ' then [""] + rest
      else [[s[0]] + rest[0]] + rest[1..]
  }

  /** JavaScript's `fields.join(' ')`: the inverse of `Split`. */
  function Join(fields: seq<string>): string
    requires |fields| >= 1
  {
    if |fields| == 1 then fields[0] else fields[0] + " " + Join(fields[1..])
  }

  /** Splitting and joining again gives back the original string. */
  lemma {:induction false} JoinSplit(s: string)
    ensures Join(Split(s)) == s
  {
    if s != [] {
      var rest := Split(s[1..]);
      JoinSplit(s[1..]);
      if s[0] == ' ' {
        assert Split(s) == [""] + rest;
        assert Join(Split(s)) == "" + " " + Join(rest);
      } else {
        var r := Split(s);
        assert r == [[s[0]] + rest[0]] + rest[1..];
        if |rest| == 1 {
          assert Join(r) == [s[0]] + rest[0];
        } else {
          assert r[1..] == rest[1..];
          assert Join(r) == [s[0]] + rest[0] + " " + Join(rest[1..]);
          assert Join(rest) == rest[0] + " " + Join(rest[1..]);
        }
      }
    }
  }

  /** A string without spaces is a single field. */
  lemma {:induction false} SplitNoSpace(s: string)
    requires ' ' !in s
    ensures Split(s) == [s]
  {
    if s != [] {
      assert ' ' !in s[1..];
      SplitNoSpace(s[1..]);
      assert [s[0]] + s[1..] == s;
    }
  }

  /** A space between two strings separates their fields. */
  lemma {:induction false} SplitAppend(a: string, b: string)
    ensures Split(a + " " + b) == Split(a) + Split(b)
  {
    if a == [] {
      assert a + " " + b == [' '] + b;
      SplitCons(' ', b);
    } else {
      var c, a1 := a[0], a[1..];
      assert a == [c] + a1;
      assert a + " " + b == [c] + (a1 + " " + b);
      SplitAppend(a1, b);
      SplitCons(c, a1 + " " + b);
      SplitCons(c, a1);
      ConsFields(c, Split(a1), Split(b));
    }
  }

  /** Putting a character in front of the first field commutes with appending fields. */
  lemma ConsFields(c: char, x: seq<string>, y: seq<string>)
    requires |x| >= 1
    ensures (if c == ' ' then [""] + (x + y) else [[c] + (x + y)[0]] + (x + y)[1..]) ==
            (if c == ' ' then [""] + x else [[c] + x[0]] + x[1..]) + y
  {
    if c != ' ' {
      assert (x + y)[0] == x[0];
      assert (x + y)[1..] == x[1..] + y;
    }
  }

  /** `Split` of a non-empty string, one character at a time. */
  lemma SplitCons(c: char, s: string)
    ensures Split([c] + s) == if c == ' ' then [""] + Split(s)
                              else [[c] + Split(s)[0]] + Split(s)[1..]
  {
    assert ([c] + s)[1..] == s;
  }

  /** Joining fields that hold no space and splitting again gives back the fields. */
  lemma {:induction false} SplitJoin(fields: seq<string>)
    requires |fields| >= 1
    requires forall i :: 0 <= i < |fields| ==> ' ' !in fields[i]
    ensures Split(Join(fields)) == fields
  {
    SplitNoSpace(fields[0]);
    if |fields| > 1 {
      SplitJoin(fields[1..]);
      SplitAppend(fields[0], Join(fields[1..]));
      assert [fields[0]] + fields[1..] == fields;
    }
  }
}
