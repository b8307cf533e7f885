/** The value of an API token: `nxe_<id>_<secret>`, and taking one apart. */
module TokenFormat {
  import opened Common
  import opened Text

  const ID_LENGTH := 16
  const SECRET_LENGTH := 43

  predicate IsBase64Url(c: char) { '0' <= c <= '9' || 'a' <= c <= 'z' || 'A' <= c <= 'Z' || c == '_' || c == '-' }

  predicate IsId(s: string) { |s| == ID_LENGTH && forall i :: 0 <= i < |s| ==> IsHex(s[i]) }

  predicate IsSecret(s: string) { |s| == SECRET_LENGTH && forall i :: 0 <= i < |s| ==> IsBase64Url(s[i]) }

  /** An id is sixteen hexadecimal digits, a secret forty-three characters of the alphabet of base64url. */
  lemma WellFormedExactly(s: string)
    ensures IsId(s) <==> |s| == 16 && forall i :: 0 <= i < |s| ==> '0' <= s[i] <= '9' || 'a' <= s[i] <= 'f'
    ensures IsSecret(s) <==>
            |s| == 43 && forall i :: 0 <= i < |s| ==>
              'A' <= s[i] <= 'Z' || 'a' <= s[i] <= 'z' || '0' <= s[i] <= '9' || s[i] == '-' || s[i] == '_'
  {
  }

  datatype Parts = Parts(id: string, secret: string)

  function Value(p: Parts): string { "nxe_" + (p.id + ("_" + p.secret)) }

  /** The anchored pattern: every length is fixed, so an underscore in the secret is no ambiguity. */
  function ParseToken(value: string): Option<Parts> {
    if |value| != 4 + ID_LENGTH + 1 + SECRET_LENGTH then None
    else
      var id, secret := value[4..4 + ID_LENGTH], value[5 + ID_LENGTH..];
      if value[..4] == "nxe_" && IsId(id) && value[4 + ID_LENGTH] == '_' && IsSecret(secret) then Some(Parts(id, secret)) else None
  }

  /** A minted value parses back to its parts, and nothing else parses to them. */
  lemma ParsesExactly(value: string, p: Parts)
    ensures ParseToken(value) == Some(p) <==> value == Value(p) && IsId(p.id) && IsSecret(p.secret)
  {
    if value == Value(p) && IsId(p.id) && IsSecret(p.secret) {
      assert value[4..4 + ID_LENGTH] == p.id && value[5 + ID_LENGTH..] == p.secret && value[..4] == "nxe_";
    }
    if ParseToken(value) == Some(p) {
      assert value == value[..4] + (value[4..4 + ID_LENGTH] + ([value[4 + ID_LENGTH]] + value[5 + ID_LENGTH..]));
    }
  }
}
