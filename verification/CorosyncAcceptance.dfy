/** Which inputs the corosync.conf parser accepts, and which error the others get. */
module CorosyncAcceptance {
  import opened CorosyncConf

  datatype Verdict = Accepted | Rejected(error: ParseError)

  /** One pass over the tokens with nothing but a depth counter: the first thing wrong, if any. */
  function Scan(tokens: seq<Token>, depth: nat): Verdict {
    if tokens == [] then
      if depth > 0 then Rejected(MissingClosingBrace) else Accepted
    else match tokens[0]
      case Bad(e) => Rejected(e)
      case Close => if depth == 0 then Rejected(UnexpectedClosingBrace) else Scan(tokens[1..], depth - 1)
      case Open(_) => Scan(tokens[1..], depth + 1)
      case _ => Scan(tokens[1..], depth)
  }

  /** The recursive parser finds what the counter finds, at any depth below the root. */
  lemma {:induction false} ParseScansNested(tokens: seq<Token>, depth: nat)
    requires depth > 0
    ensures match Parse(tokens, true)
      case Ok(p) => Scan(tokens, depth) == Scan(p.rest, depth - 1)
      case Err(e) => Scan(tokens, depth) == Rejected(e)
    decreases |tokens|
  {
    if tokens != [] {
      match tokens[0]
      case Ignored => ParseScansNested(tokens[1..], depth);
      case Bad(_) =>
      case Close =>
      case Pair(_) => ParseScansNested(tokens[1..], depth);
      case Open(_) =>
        ParseScansNested(tokens[1..], depth + 1);
        var inner := Parse(tokens[1..], true);
        if inner.Ok? {
          ParseScansNested(inner.value.rest, depth);
        }
    }
  }

  /** Acceptance and the reported error are exactly the counter's verdict. */
  lemma {:induction false} ParseScans(tokens: seq<Token>)
    ensures match Parse(tokens, false)
      case Ok(_) => Scan(tokens, 0) == Accepted
      case Err(e) => Scan(tokens, 0) == Rejected(e)
    decreases |tokens|
  {
    if tokens != [] {
      match tokens[0]
      case Ignored => ParseScans(tokens[1..]);
      case Bad(_) =>
      case Close =>
      case Pair(_) => ParseScans(tokens[1..]);
      case Open(_) =>
        ParseScansNested(tokens[1..], 1);
        var inner := Parse(tokens[1..], true);
        if inner.Ok? {
          ParseScans(inner.value.rest);
        }
    }
  }

  function Depth(tokens: seq<Token>): int {
    if tokens == [] then 0
    else (match tokens[0] case Open(_) => 1 case Close => -1 case _ => 0) + Depth(tokens[1..])
  }

  /** Every line is one the grammar knows, and the braces match up. */
  ghost predicate WellBracketed(tokens: seq<Token>, depth: nat) {
    && (forall i | 0 <= i < |tokens| :: !tokens[i].Bad?)
    && (forall k | 0 <= k <= |tokens| :: depth + Depth(tokens[..k]) >= 0)
    && depth + Depth(tokens) == 0
  }

  lemma {:induction false} ScanIsWellBracketed(tokens: seq<Token>, depth: nat)
    ensures Scan(tokens, depth) == Accepted <==> WellBracketed(tokens, depth)
    decreases |tokens|
  {
    if tokens != [] {
      var tail := tokens[1..];
      var step := match tokens[0] case Open(_) => 1 case Close => -1 case _ => 0;
      forall k | 0 < k <= |tokens| ensures Depth(tokens[..k]) == step + Depth(tail[..k - 1]) {
        assert tokens[..k][1..] == tail[..k - 1];
      }
      if depth + step < 0 {
        assert Depth(tail[..0]) == 0;
        assert depth + Depth(tokens[..1]) < 0;
      } else {
        ScanIsWellBracketed(tail, depth + step);
        if WellBracketed(tail, depth + step) {
          forall k | 0 <= k <= |tokens| ensures depth + Depth(tokens[..k]) >= 0 {
            if k > 0 { assert depth + step + Depth(tail[..k - 1]) >= 0; }
          }
        }
        if WellBracketed(tokens, depth) {
          forall k | 0 <= k <= |tail| ensures depth + step + Depth(tail[..k]) >= 0 {
            assert depth + Depth(tokens[..k + 1]) >= 0;
          }
        }
      }
    }
  }

  /** The parser accepts exactly the well-bracketed files. */
  lemma AcceptsWellBracketed(tokens: seq<Token>)
    ensures Parse(tokens, false).Ok? <==> WellBracketed(tokens, 0)
  {
    ParseScans(tokens);
    ScanIsWellBracketed(tokens, 0);
  }
}
