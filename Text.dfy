/** Prefix matching on text, shared by the readers of request URLs and CSV rows. */
module Text {
  import opened Wrappers

  /** The rest of s after prefix, or None when s does not start with prefix. */
  function StripPrefix(prefix: string, s: string): (r: Option<string>)
    ensures r.Some? ==> s == prefix + r.value
    ensures r.None? ==> !(|prefix| <= |s| && s[..|prefix|] == prefix)
  {
    if |prefix| <= |s| && s[..|prefix|] == prefix then Some(s[|prefix|..]) else None
  }

  lemma StripPrefixOfConcat(prefix: string, rest: string)
    ensures StripPrefix(prefix, prefix + rest) == Some(rest)
  {
    assert (prefix + rest)[..|prefix|] == prefix;
    assert (prefix + rest)[|prefix|..] == rest;
  }

  /** Regrouping a concatenation. */
  lemma Assoc<T>(a: seq<T>, b: seq<T>, c: seq<T>)
    ensures (a + b) + c == a + (b + c)
  {
  }

  /** Seven pieces and a tail, regrouped to the right; spelled out step by step to keep proofs about long concatenations cheap. */
  lemma RegroupRight7<T>(a: seq<T>, b: seq<T>, c: seq<T>, d: seq<T>, e: seq<T>, f: seq<T>, g: seq<T>, w: seq<T>)
    ensures a + b + c + d + e + f + g + w == a + (b + (c + (d + (e + (f + (g + w))))))
  {
    Assoc(a + b + c + d + e + f, g, w);
    Assoc(a + b + c + d + e, f, g + w);
    Assoc(a + b + c + d, e, f + (g + w));
    Assoc(a + b + c, d, e + (f + (g + w)));
    Assoc(a + b, c, d + (e + (f + (g + w))));
    Assoc(a, b, c + (d + (e + (f + (g + w)))));
  }
}
