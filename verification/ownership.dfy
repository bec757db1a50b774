/** The owner guard both submission drivers run once, before any write. */
module Ownership {
  import opened Text

  /** The configured sender is accepted when its address equals the contract's
      recorded owner after both are lower-cased. */
  predicate SameAddress(contractOwner: string, configured: string) {
    Lower(contractOwner) == Lower(configured)
  }

  /** Two characters that are equal or are the upper- and lower-case forms of one letter. */
  predicate SameLetter(c: char, d: char) {
    || c == d
    || (IsUpper(c) && d as int == c as int + 32)
    || (IsUpper(d) && c as int == d as int + 32)
  }

  /** A reading of case-insensitive equality that does not go through lower-casing. */
  predicate EqualIgnoringCase(a: string, b: string) {
    |a| == |b| && forall k :: 0 <= k < |a| ==> SameLetter(a[k], b[k])
  }

  lemma SameLetterIff(c: char, d: char)
    ensures SameLetter(c, d) <==> LowerChar(c) == LowerChar(d)
  {
  }

  /** The owner check accepts exactly the addresses that differ from the owner
      only in the case of their letters. */
  lemma SameAddressIff(contractOwner: string, configured: string)
    ensures SameAddress(contractOwner, configured) <==> EqualIgnoringCase(contractOwner, configured)
  {
    var lo, lc := Lower(contractOwner), Lower(configured);
    if SameAddress(contractOwner, configured) {
      forall k | 0 <= k < |contractOwner|
        ensures SameLetter(contractOwner[k], configured[k])
      {
        assert lo[k] == lc[k];
        SameLetterIff(contractOwner[k], configured[k]);
      }
    }
    if EqualIgnoringCase(contractOwner, configured) {
      forall k | 0 <= k < |lo|
        ensures lo[k] == lc[k]
      {
        SameLetterIff(contractOwner[k], configured[k]);
      }
    }
  }

  /** A mixed-case (checksummed) rendering of an address passes the check
      against its all-lower-case rendering, and a different address does not. */
  lemma ChecksumCaseIgnored()
    ensures SameAddress("0x01EfCC", "0x01efcc")
    ensures !SameAddress("0x01EfCC", "0x01efcd")
  {
    SameAddressIff("0x01EfCC", "0x01efcc");
    assert Lower("0x01EfCC")[7] == 'c' && Lower("0x01efcd")[7] == 'd';
  }
}
