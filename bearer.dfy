/**
 * The bearer token of a request: the second space-separated field of the
 * Authorization header (`req.headers.authorization?.split(' ')[1]`), where a
 * missing header, a missing second field and an empty second field all mean
 * that no token was sent (the handlers test it with `!token`).
 */
module Bearer {
  import opened Wrappers
  import opened Text

  /** The token the handlers go on with, or None where they answer "no token". */
  function ExtractToken(header: Option<string>): (r: Option<string>)
    ensures r.Some? ==> r.value != "" && ' ' !in r.value
    ensures header.None? ==> r.None?
  {
    match header
    case None => None
    case Some(h) =>
      var fields := Split(h);
      if |fields| >= 2 && fields[1] != "" then Some(fields[1]) else None
  }

  /** The header as a client builds it: `Bearer ${token}`. */
  function BearerHeader(token: string): string {
    "Bearer " + token
  }

  /**
   * Reference definition: `t` is the text after the first space of `h`, up to
   * the next space or the end of `h`.
   */
  ghost predicate IsSecondField(h: string, t: string) {
    ' ' !in t && exists i :: FirstSpaceAt(h, t, i)
  }

  /** `h` has its first space at `i`, followed by `t` up to a space or the end. */
  ghost predicate FirstSpaceAt(h: string, t: string, i: int) {
    0 <= i && i + 1 + |t| <= |h| && h[i] == ' ' && ' ' !in h[..i] &&
    h[i + 1..i + 1 + |t|] == t && (i + 1 + |t| == |h| || h[i + 1 + |t|] == ' ')
  }

  /** A header cut into its first field, a space, the second field and the rest. */
  lemma {:induction false} ExtractFromParts(h: string, scheme: string, t: string, tail: string)
    requires h == scheme + " " + t + tail
    requires ' ' !in scheme && ' ' !in t
    requires tail == "" || tail[0] == ' '
    ensures ExtractToken(Some(h)) == if t == "" then None else Some(t)
  {
    SplitNoSpace(scheme);
    SplitNoSpace(t);
    if tail == "" {
      assert h == scheme + " " + t;
      SplitAppend(scheme, t);
    } else {
      assert h == scheme + " " + (t + " " + tail[1..]);
      SplitAppend(scheme, t + " " + tail[1..]);
      SplitAppend(t, tail[1..]);
    }
  }

  /** The token is exactly the second field of the header, when that field is non-empty. */
  lemma ExtractTokenIsSecondField(h: string, t: string)
    ensures ExtractToken(Some(h)) == Some(t) <==> t != "" && IsSecondField(h, t)
  {
    if ExtractToken(Some(h)) == Some(t) {
      ExtractedIsSecondField(h);
    }
    if t != "" && IsSecondField(h, t) {
      SecondFieldIsExtracted(h, t);
    }
  }

  lemma {:induction false} ExtractedIsSecondField(h: string)
    requires ExtractToken(Some(h)).Some?
    ensures IsSecondField(h, ExtractToken(Some(h)).value)
  {
    var f := Split(h);
    var t := f[1];
    JoinSplit(h);
    var rest := if |f| == 2 then "" else " " + Join(f[2..]);
    assert Join(f) == f[0] + " " + Join(f[1..]);
    assert Join(f[1..]) == t + rest by {
      if |f| > 2 {
        assert f[1..][1..] == f[2..];
      }
    }
    var i := |f[0]|;
    assert h == f[0] + " " + t + rest;
    assert h[..i] == f[0];
    assert h[i] == ' ';
    assert h[i + 1..i + 1 + |t|] == t;
    assert i + 1 + |t| == |h| || h[i + 1 + |t|] == ' ';
    assert FirstSpaceAt(h, t, i);
  }

  lemma {:induction false} SecondFieldIsExtracted(h: string, t: string)
    requires t != "" && IsSecondField(h, t)
    ensures ExtractToken(Some(h)) == Some(t)
  {
    var i :| FirstSpaceAt(h, t, i);
    SecondFieldAt(h, t, i);
  }

  /** The field that starts after the first space, at position `i`, is the token. */
  lemma SecondFieldAt(h: string, t: string, i: nat)
    requires t != "" && ' ' !in t && FirstSpaceAt(h, t, i)
    ensures ExtractToken(Some(h)) == Some(t)
  {
    var j := i + 1 + |t|;
    var scheme, tail := h[..i], h[j..];
    Reassemble(h, t, i);
    assert tail == "" || tail[0] == h[j] == ' ';
    ExtractFromParts(h, scheme, t, tail);
  }

  /** A string is what comes before position `i`, the space at `i`, `t` and the rest. */
  lemma Reassemble(h: string, t: string, i: nat)
    requires i + 1 + |t| <= |h| && h[i] == ' ' && h[i + 1..i + 1 + |t|] == t
    ensures h == h[..i] + " " + t + h[i + 1 + |t|..]
  {
    var j := i + 1 + |t|;
    assert h[i + 1..] == h[i + 1..j] + h[j..];
    assert h[i..] == " " + h[i + 1..];
    assert h == h[..i] + h[i..];
  }

  /** A header without any space carries no token. */
  lemma NoSpaceNoToken(h: string)
    requires ' ' !in h
    ensures ExtractToken(Some(h)) == None
  {
    SplitNoSpace(h);
  }

  /** A header built by the client gives back the token it was built from. */
  lemma BearerRoundTrip(token: string)
    requires token != "" && ' ' !in token
    ensures ExtractToken(Some(BearerHeader(token))) == Some(token)
  {
    ExtractFromParts(BearerHeader(token), "Bearer", token, "");
  }

  /** `Bearer ` with nothing after the space carries no token. */
  lemma EmptyBearerNoToken()
    ensures ExtractToken(Some("Bearer ")) == None
  {
    ExtractFromParts("Bearer ", "Bearer", "", "");
  }
}
