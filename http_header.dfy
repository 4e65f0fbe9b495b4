/** Go's `net/http.Header`: a multimap from canonical header names to the
    list of values, keyed through `textproto.CanonicalMIMEHeaderKey`. */
module HttpHeader {
  import opened Text

  type Fields = map<string, seq<string>>

  /** A byte allowed in a header field name (an RFC 7230 token character). */
  predicate IsTokenChar(c: char) {
    ('a' <= c <= 'z') || ('A' <= c <= 'Z') || ('0' <= c <= '9')
    || c in "!#$%&'*+-.^_`|~"
  }

  predicate AllTokenChars(k: string) {
    forall i :: 0 <= i < |k| ==> IsTokenChar(k[i])
  }

  function AsciiUpper(c: char): char {
    if 'a' <= c <= 'z' then (c as int - 32) as char else c
  }

  function AsciiLower(c: char): char {
    if 'A' <= c <= 'Z' then (c as int + 32) as char else c
  }

  /** Whether position `i` of `k` starts a word: the first position, or
      one right after a `-`. */
  predicate StartsWord(k: string, i: nat)
    requires i < |k|
  {
    i == 0 || k[i - 1] == '-'
  }

  /** `k` with the first letter of every word upper-cased and every other
      letter lower-cased ("content-TYPE" becomes "Content-Type"). */
  function CanonicalCase(k: string): (r: string)
    ensures |r| == |k|
  {
    seq(|k|, i requires 0 <= i < |k| => if StartsWord(k, i) then AsciiUpper(k[i]) else AsciiLower(k[i]))
  }

  /** Go's `textproto.CanonicalMIMEHeaderKey`: a name holding any byte that
      is not a token character is returned unchanged, otherwise it is put
      in canonical case. */
  function CanonicalKey(k: string): (r: string)
    ensures |r| == |k|
    ensures !AllTokenChars(k) ==> r == k
  {
    if AllTokenChars(k) then CanonicalCase(k) else k
  }

  /** Canonicalising changes only the case of ASCII letters: every
      character lower-cases to what the original one does. */
  lemma CanonicalKeyOnlyChangesCase(k: string, i: nat)
    requires i < |k|
    ensures AsciiLower(CanonicalKey(k)[i]) == AsciiLower(k[i])
  {
    if AllTokenChars(k) {
      var c := k[i];
      assert CanonicalKey(k)[i] == if StartsWord(k, i) then AsciiUpper(c) else AsciiLower(c);
    }
  }

  /** Changing case keeps every `-` where it was, and nothing else becomes one. */
  lemma CanonicalCaseKeepsDashes(k: string)
    ensures forall i :: 0 <= i < |k| ==> (CanonicalCase(k)[i] == '-' <==> k[i] == '-')
  {
  }

  /** Changing case keeps a name made of token characters made of them. */
  lemma CanonicalCaseKeepsTokens(k: string)
    requires AllTokenChars(k)
    ensures AllTokenChars(CanonicalCase(k))
  {
    var r := CanonicalCase(k);
    forall i | 0 <= i < |k| ensures IsTokenChar(r[i]) {
      assert IsTokenChar(k[i]);
    }
  }

  /** Words start at the same places in a name and in its canonical form,
      so canonicalising twice is canonicalising once. */
  lemma CanonicalCaseIdempotent(k: string)
    ensures CanonicalCase(CanonicalCase(k)) == CanonicalCase(k)
  {
    var r := CanonicalCase(k);
    CanonicalCaseKeepsDashes(k);
    forall i | 0 <= i < |k| ensures CanonicalCase(r)[i] == r[i] {
      assert StartsWord(r, i) == StartsWord(k, i);
    }
  }

  /** Canonicalising a canonical name changes nothing. */
  lemma CanonicalKeyIdempotent(k: string)
    ensures CanonicalKey(CanonicalKey(k)) == CanonicalKey(k)
  {
    if AllTokenChars(k) {
      CanonicalCaseKeepsTokens(k);
      CanonicalCaseIdempotent(k);
    }
  }

  /** The values stored under `k`, none when `k` is absent. */
  function Values(h: Fields, k: string): seq<string> {
    if k in h then h[k] else []
  }

  /** The value `Header.Get` reads: the first value under `k`, or "" when
      there is none, so an absent name and an empty first value look alike. */
  function FirstValue(h: Fields, k: string): string {
    if Values(h, k) == [] then "" else Values(h, k)[0]
  }

  /** Every name in `h` is in canonical form, as in every header Go's
      parsers produce and every header built with Add and Set. */
  ghost predicate CanonicalFields(h: Fields) {
    forall k :: k in h ==> CanonicalKey(k) == k
  }

  /** The net/http header object that the proxy reads and fills in place. */
  class Header {
    var fields: Fields

    ghost predicate Valid()
      reads this
    {
      CanonicalFields(fields)
    }

    /** `make(http.Header)`. */
    constructor ()
      ensures Valid() && fields == map[]
    {
      fields := map[];
    }

    /** `Header.Add`: appends `value` to the values of the canonical `key`. */
    method Add(key: string, value: string)
      requires Valid()
      modifies this
      ensures Valid()
      ensures fields == old(fields)[CanonicalKey(key) := Values(old(fields), CanonicalKey(key)) + [value]]
    {
      var k := CanonicalKey(key);
      CanonicalKeyIdempotent(key);
      fields := fields[k := Values(fields, k) + [value]];
    }

    /** `Header.Set`: replaces the values of the canonical `key` by `value` alone. */
    method Set(key: string, value: string)
      requires Valid()
      modifies this
      ensures Valid()
      ensures fields == old(fields)[CanonicalKey(key) := [value]]
    {
      var k := CanonicalKey(key);
      CanonicalKeyIdempotent(key);
      fields := fields[k := [value]];
    }

    /** `Header.Del`: removes the canonical `key` and its values. */
    method Del(key: string)
      requires Valid()
      modifies this
      ensures Valid()
      ensures fields == old(fields) - {CanonicalKey(key)}
    {
      fields := fields - {CanonicalKey(key)};
    }

    /** `Header.Get`: the first value of the canonical `key`, or "" when it
        has none. */
    method Get(key: string) returns (value: string)
      ensures value == FirstValue(fields, CanonicalKey(key))
    {
      var k := CanonicalKey(key);
      if k in fields && |fields[k]| > 0 {
        value := fields[k][0];
      } else {
        value := "";
      }
    }
  }

  /** Canonicalisation examples: "TE" is stored as "Te", and a name with a
      space is left as written. */
  lemma CanonicalKeyExamples()
    ensures CanonicalKey("TE") == "Te"
    ensures CanonicalKey("x y") == "x y"
  {
    assert !IsTokenChar("x y"[1]);
  }
}
