/** Short-link generation for recipes. A recipe that already has a link keeps
    it. Otherwise the first MAX_HASH_LENGTH characters of an md5 hex digest are
    tried. While that link is taken, the i-th retry replaces the last
    character by the decimal digits of i, for i = 1, 2, .... The digest
    (md5 of a timestamp and the id) is an opaque input string. */
module ShortLinks {
  import opened Common
  import opened Text

  /** The first candidate: `digest[:MAX_HASH_LENGTH]`. */
  function FirstCandidate(digest: string, hashLength: nat): (c: string)
    ensures |c| == if hashLength <= |digest| then hashLength else |digest|
    ensures c == digest[..|c|]
  {
    Take(digest, hashLength)
  }

  /** The i-th retry: `original[:MAX_HASH_LENGTH - 1] + str(i)`. */
  function Retry(original: string, hashLength: nat, i: nat): string
    requires hashLength >= 1
  {
    Take(original, hashLength - 1) + NatToString(i)
  }

  /** The candidate after k retries (k = 0 is the first candidate itself). */
  function Candidate(original: string, hashLength: nat, k: nat): string
    requires hashLength >= 1
  {
    if k == 0 then original else Retry(original, hashLength, k)
  }

  /** Retries for distinct i are distinct strings. */
  lemma RetryInjective(original: string, hashLength: nat, i: nat, j: nat)
    requires hashLength >= 1
    requires Retry(original, hashLength, i) == Retry(original, hashLength, j)
    ensures i == j
  {
    var p := Take(original, hashLength - 1);
    assert NatToString(i) == Retry(original, hashLength, i)[|p|..];
    assert NatToString(j) == Retry(original, hashLength, j)[|p|..];
    NatToStringInjective(i, j);
  }

  /** A retry is MAX_HASH_LENGTH - 1 characters plus the digits of i: exactly
      MAX_HASH_LENGTH long for i < 10 and longer from i = 10 on. */
  lemma RetryLength(original: string, hashLength: nat, i: nat)
    requires hashLength >= 1
    requires |original| >= hashLength - 1
    ensures |Retry(original, hashLength, i)| == hashLength - 1 + |NatToString(i)|
    ensures i < 10 ==> |Retry(original, hashLength, i)| == hashLength
    ensures i >= 10 ==> |Retry(original, hashLength, i)| > hashLength
  {
    NatToStringLength(i);
  }

  /** The retries below n, i.e. those already found taken. */
  function RetriesBelow(original: string, hashLength: nat, n: nat): set<string>
    requires hashLength >= 1
  {
    set k | 1 <= k < n :: Retry(original, hashLength, k)
  }

  lemma RetriesBelowStep(original: string, hashLength: nat, n: nat)
    requires hashLength >= 1 && n >= 1
    ensures RetriesBelow(original, hashLength, n + 1) ==
      RetriesBelow(original, hashLength, n) + {Retry(original, hashLength, n)}
    ensures Retry(original, hashLength, n) !in RetriesBelow(original, hashLength, n)
  {
    if Retry(original, hashLength, n) in RetriesBelow(original, hashLength, n) {
      var k :| 1 <= k < n && Retry(original, hashLength, k) == Retry(original, hashLength, n);
      RetryInjective(original, hashLength, k, n);
    }
  }

  /** `generate_short_link`: returns the link and, for the proof, how many retries it took. */
  method GenerateShortLink(shortLink: string, digest: string, hashLength: nat, stored: set<string>)
    returns (link: string, retries: nat)
    requires hashLength >= 1
    // an existing link is kept, so regeneration is idempotent
    ensures shortLink != "" ==> link == shortLink && retries == 0
    // a fresh link is the first candidate, in retry order, that no recipe uses
    ensures shortLink == "" ==> link !in stored
    ensures shortLink == "" ==> link == Candidate(FirstCandidate(digest, hashLength), hashLength, retries)
    ensures shortLink == "" ==>
      forall k :: 0 <= k < retries ==> Candidate(FirstCandidate(digest, hashLength), hashLength, k) in stored
    ensures shortLink == "" && digest != "" ==> link != ""
  {
    if shortLink != "" {
      return shortLink, 0;
    }
    var original := FirstCandidate(digest, hashLength);
    link := original;
    retries := 0;
    var i := 1;
    while link in stored
      invariant i == retries + 1
      invariant link == Candidate(original, hashLength, retries)
      invariant forall k :: 0 <= k < retries ==> Candidate(original, hashLength, k) in stored
      invariant RetriesBelow(original, hashLength, retries) <= stored
      decreases |stored - RetriesBelow(original, hashLength, retries)|, if retries == 0 then 1 else 0
    {
      if retries >= 1 {
        RetryShrinksRemaining(original, hashLength, stored, retries);
      } else {
        assert RetriesBelow(original, hashLength, 1) == {};
      }
      link := Take(original, hashLength - 1) + NatToString(i);
      i := i + 1;
      retries := retries + 1;
    }
  }

  /** A taken retry leaves one fewer stored link that could still collide. */
  lemma RetryShrinksRemaining(original: string, hashLength: nat, stored: set<string>, n: nat)
    requires hashLength >= 1 && n >= 1
    requires Retry(original, hashLength, n) in stored
    ensures |stored - RetriesBelow(original, hashLength, n + 1)| < |stored - RetriesBelow(original, hashLength, n)|
  {
    RetriesBelowStep(original, hashLength, n);
    var x := Retry(original, hashLength, n);
    var before := stored - RetriesBelow(original, hashLength, n);
    assert stored - RetriesBelow(original, hashLength, n + 1) == before - {x};
    assert x in before;
  }
}
