/**
 * The webhook signature gate of `post '/'`: the `X-Hub-Signature` header,
 * "<algorithm>=<hex digest>", is split on '=' and its digest part compared
 * with the keyed hash of the raw body that the server computes itself.
 *
 * The keyed hash (HMAC, RFC 2104, keyed with the webhook secret over the raw
 * body) is the parameter `hexdigest`: for an algorithm name it gives the hex
 * digest, or None when the crypto library does not know that name and raises.
 */
module Signature {
  import opened Wrappers
  import opened RubyText

  /** The header value used when the request carries none. */
  const DefaultHeader: string := "sha1="

  /** Accepted: the request goes on. Rejected: `halt 401`. Raised: the hash computation raised, the request ends in an error. */
  datatype Verdict = Accepted | Rejected | Raised

  /** `method, their_digest = header.split('=')`: the first two fields, nil where the split result is shorter. */
  function ParseHeader(header: string): (parts: (Option<string>, Option<string>))
    ensures parts.1.Some? ==> parts.0.Some?
    ensures parts.0.Some? ==> '=' !in parts.0.value
    ensures parts.1.Some? ==> '=' !in parts.1.value
  {
    var fields := Split(header, '=');
    (At(fields, 0), At(fields, 1))
  }

  /** The whole gate, header absent or present. */
  function Check(header: Option<string>, hexdigest: string -> Option<string>): (v: Verdict)
    ensures var parts := ParseHeader(header.GetOr(DefaultHeader));
            v == Accepted <==> parts.0.Some? && hexdigest(parts.0.value).Some? && parts.1 == hexdigest(parts.0.value)
    ensures v == Raised <==> ParseHeader(header.GetOr(DefaultHeader)).0.None?
                             || hexdigest(ParseHeader(header.GetOr(DefaultHeader)).0.value).None?
  {
    var (alg, theirs) := ParseHeader(header.GetOr(DefaultHeader));
    if alg.None? then Raised
    else
      match hexdigest(alg.value)
      case None => Raised
      case Some(ours) => if theirs == Some(ours) then Accepted else Rejected
  }

  /** A request without the header is never let through; with SHA-1 available it is answered 401. */
  lemma MissingHeaderNeverAccepted(hexdigest: string -> Option<string>)
    ensures Check(None, hexdigest) != Accepted
    ensures hexdigest("sha1").Some? ==> Check(None, hexdigest) == Rejected
  {
    assert DefaultHeader == "sha1" + ['='];
    assert '=' !in "sha1";
    SplitTrailingSeparator("sha1", '=');
  }

  /** A header that names an algorithm but carries an empty digest is never let through, present or not. */
  lemma EmptyDigestNeverAccepted(alg: string, hexdigest: string -> Option<string>)
    requires '=' !in alg
    ensures Check(Some(alg + "="), hexdigest) != Accepted
  {
    SplitTrailingSeparator(alg, '=');
  }

  /** A sender who knows the secret passes: the header "<alg>=<digest of the body>" is accepted. */
  lemma CorrectSignatureAccepted(alg: string, hexdigest: string -> Option<string>)
    requires '=' !in alg
    requires hexdigest(alg).Some? && hexdigest(alg).value != [] && '=' !in hexdigest(alg).value
    ensures Check(Some(alg + "=" + hexdigest(alg).value), hexdigest) == Accepted
  {
    SplitPair(alg, hexdigest(alg).value, '=');
  }

  /** Any other digest for a known algorithm is answered 401, whatever it differs in. */
  lemma WrongDigestRejected(alg: string, digest: string, hexdigest: string -> Option<string>)
    requires '=' !in alg && '=' !in digest && digest != []
    requires hexdigest(alg).Some? && hexdigest(alg).value != digest
    ensures Check(Some(alg + "=" + digest), hexdigest) == Rejected
  {
    SplitPair(alg, digest, '=');
  }

  /**
   * Fields after the digest are ignored: "<alg>=<HMAC>=<anything>" is let
   * through just like "<alg>=<HMAC>", since only the first two fields are read.
   */
  lemma TrailingFieldsIgnored(alg: string, rest: string, hexdigest: string -> Option<string>)
    requires '=' !in alg
    requires hexdigest(alg).Some? && hexdigest(alg).value != [] && '=' !in hexdigest(alg).value
    ensures Check(Some(alg + "=" + hexdigest(alg).value + "=" + rest), hexdigest) == Accepted
  {
    SplitFirstTwo(alg, hexdigest(alg).value, rest, '=');
    var fields := Split(alg + "=" + hexdigest(alg).value + "=" + rest, '=');
    assert fields[0] == alg && fields[1] == hexdigest(alg).value by {
      assert fields[..2][0] == fields[0] && fields[..2][1] == fields[1];
    }
  }
}
