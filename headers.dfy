/**
 * Folding a multi-valued HTTP header map into one string per header name,
 * the values of a name joined with commas, as the profiler's request handler
 * does before it records a request.
 */
module Headers {

  /** The separator placed between the values of one header name. */
  const Separator: string := ","

  /**
   * Go's strings.Join: the parts with `sep` between consecutive ones. The
   * result begins with the first part, followed by `sep` when more follow.
   */
  function Join(parts: seq<string>, sep: string): (r: string)
    ensures |parts| > 0 ==> parts[0] <= r
    ensures |parts| > 1 ==> parts[0] + sep <= r
    decreases |parts|
  {
    if |parts| == 0 then ""
    else if |parts| == 1 then parts[0]
    else parts[0] + sep + Join(parts[1..], sep)
  }

  /** Sum of the lengths of the parts. */
  function TotalLength(parts: seq<string>): nat
    decreases |parts|
  {
    if parts == [] then 0 else |parts[0]| + TotalLength(parts[1..])
  }

  /** Joining n > 0 parts adds exactly n - 1 separators. */
  lemma {:induction false} JoinLength(parts: seq<string>, sep: string)
    requires |parts| > 0
    ensures |Join(parts, sep)| == TotalLength(parts) + (|parts| - 1) * |sep|
    decreases |parts|
  {
    if |parts| > 1 {
      JoinLength(parts[1..], sep);
    }
  }

  /**
   * Splitting at every comma, as Go's strings.Split(s, ","): a string with
   * k commas yields k + 1 pieces, and the empty string yields one empty piece.
   */
  function SplitOnComma(s: string): (r: seq<string>)
    ensures |r| > 0
    decreases |s|
  {
    if s == [] then [""]
    else
      var rest := SplitOnComma(s[1..]);
      if s[0] == ',' then [""] + rest
      else [[s[0]] + rest[0]] + rest[1..]
  }

  /** A comma-free string is one piece. */
  lemma {:induction false} SplitNoComma(s: string)
    requires ',' !in s
    ensures SplitOnComma(s) == [s]
    decreases |s|
  {
    if s != [] {
      assert ',' !in s[1..];
      SplitNoComma(s[1..]);
      assert s[0] != ',';
      assert [s[0]] + s[1..] == s;
    }
  }

  /** Splitting `a + "," + t` with a comma-free `a` gives `a` and then the pieces of `t`. */
  lemma {:induction false} SplitAfterPiece(a: string, t: string)
    requires ',' !in a
    ensures SplitOnComma(a + Separator + t) == [a] + SplitOnComma(t)
    decreases |a|
  {
    if a == [] {
      assert a + Separator + t == [','] + t;
      assert ([','] + t)[1..] == t;
    } else {
      assert ',' !in a[1..];
      SplitAfterPiece(a[1..], t);
      assert (a + Separator + t)[1..] == a[1..] + Separator + t;
      assert [a[0]] + a[1..] == a;
    }
  }

  /** Comma-free values are recovered from their join: the folding loses nothing then. */
  lemma {:induction false} SplitJoin(parts: seq<string>)
    requires |parts| > 0
    requires forall i :: 0 <= i < |parts| ==> ',' !in parts[i]
    ensures SplitOnComma(Join(parts, Separator)) == parts
    decreases |parts|
  {
    if |parts| == 1 {
      SplitNoComma(parts[0]);
    } else {
      SplitJoin(parts[1..]);
      SplitAfterPiece(parts[0], Join(parts[1..], Separator));
      assert [parts[0]] + parts[1..] == parts;
    }
  }

  /**
   * The folding is lossy: a value that itself holds a comma cannot be told
   * apart from two values, and no value from one empty value.
   */
  lemma JoinIsLossy()
    ensures Join(["a,b"], Separator) == Join(["a", "b"], Separator)
    ensures Join([], Separator) == Join([""], Separator)
  {
  }

  /**
   * The handler's header loop: every name of the request's header map, each
   * mapped to its values joined with commas.
   */
  method CollapseHeaders(header: map<string, seq<string>>) returns (headers: map<string, string>)
    ensures headers.Keys == header.Keys
    ensures forall k :: k in header ==> headers[k] == Join(header[k], Separator)
  {
    headers := map[];
    var remaining := header.Keys;
    while remaining != {}
      invariant remaining <= header.Keys
      invariant headers.Keys == header.Keys - remaining
      invariant forall k :: k in headers ==> headers[k] == Join(header[k], Separator)
      decreases remaining
    {
      var k :| k in remaining;
      headers := headers[k := Join(header[k], Separator)];
      remaining := remaining - {k};
    }
  }
}
