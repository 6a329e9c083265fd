/** bufio.Scanner's limit: it stops for good at the first token that fills its buffer. */
module Scanner {

  /** bufio.MaxScanTokenSize, in bytes. */
  const MAX_SCAN_TOKEN_SIZE := 64 * 1024

  /** The tokens before the first long one. */
  function UntilLong<T>(tokens: seq<T>, bytes: T -> nat): seq<T> {
    if tokens == [] || bytes(tokens[0]) >= MAX_SCAN_TOKEN_SIZE then []
    else [tokens[0]] + UntilLong(tokens[1..], bytes)
  }

  predicate AnyLong<T>(tokens: seq<T>, bytes: T -> nat) {
    exists i :: 0 <= i < |tokens| && bytes(tokens[i]) >= MAX_SCAN_TOKEN_SIZE
  }

  lemma AnyLongNext<T>(token: T, rest: seq<T>, bytes: T -> nat)
    ensures AnyLong([token] + rest, bytes) <==> bytes(token) >= MAX_SCAN_TOKEN_SIZE || AnyLong(rest, bytes)
  {
    var all := [token] + rest;
    assert all[0] == token;
    if AnyLong(rest, bytes) {
      var i :| 0 <= i < |rest| && bytes(rest[i]) >= MAX_SCAN_TOKEN_SIZE;
      assert all[i + 1] == rest[i];
    }
    if AnyLong(all, bytes) && bytes(token) < MAX_SCAN_TOKEN_SIZE {
      var i :| 0 <= i < |all| && bytes(all[i]) >= MAX_SCAN_TOKEN_SIZE;
      assert rest[i - 1] == all[i];
    }
  }

  lemma UntilLongNext<T>(token: T, rest: seq<T>, bytes: T -> nat)
    ensures UntilLong([token] + rest, bytes)
         == if bytes(token) >= MAX_SCAN_TOKEN_SIZE then [] else [token] + UntilLong(rest, bytes)
  {
    assert ([token] + rest)[1..] == rest;
  }

  /** It is a beginning of the tokens that ends just before one of 64 KiB or more, or at the end. */
  lemma {:induction false} UntilLongIs<T>(tokens: seq<T>, bytes: T -> nat) returns (c: nat)
    ensures c <= |tokens| && UntilLong(tokens, bytes) == tokens[..c]
    ensures forall i :: 0 <= i < c ==> bytes(tokens[i]) < 65536
    ensures c < |tokens| ==> bytes(tokens[c]) >= 65536
    ensures AnyLong(tokens, bytes) <==> c < |tokens|
    decreases |tokens|
  {
    if tokens == [] || bytes(tokens[0]) >= MAX_SCAN_TOKEN_SIZE {
      c := 0;
    } else {
      var d := UntilLongIs(tokens[1..], bytes);
      c := d + 1;
      assert tokens[..c] == [tokens[0]] + tokens[1..][..d];
    }
  }

  lemma {:induction false} UntilLongAppend<T>(a: seq<T>, b: seq<T>, bytes: T -> nat)
    requires forall i :: 0 <= i < |a| ==> bytes(a[i]) < MAX_SCAN_TOKEN_SIZE
    ensures UntilLong(a + b, bytes) == a + UntilLong(b, bytes)
    decreases |a|
  {
    if a == [] {
      assert a + b == b;
    } else {
      assert (a + b)[0] == a[0] && (a + b)[1..] == a[1..] + b;
      UntilLongAppend(a[1..], b, bytes);
      assert [a[0]] + (a[1..] + UntilLong(b, bytes)) == a + UntilLong(b, bytes);
    }
  }
}
