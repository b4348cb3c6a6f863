/**
 * The message sanitizer of `WhatsAppBot.sanitize_message`: drop every character
 * outside the Basic Multilingual Plane, normalise to NFKC, drop again; if any
 * step raises, keep only the ASCII characters of the original message.
 *
 * NFKC normalisation depends on the Unicode tables, so it is a parameter:
 * `normalize(s)` is `Some(n)` when it returns `n` and `None` when it raises.
 */
module Sanitizer {
  import opened Wrappers
  import opened Text

  /** Highest code point of the Basic Multilingual Plane (U+FFFF). */
  const BmpLast := 0xFFFF

  /** Code points up to U+FFFF, the range of both BMP filters. */
  predicate InBmp(c: char)
  {
    c as int <= BmpLast
  }

  /** Code points below 128, kept by the fallback path. */
  predicate IsAscii(c: char)
  {
    c as int < 128
  }

  /** Every character of `s` is in the BMP. */
  predicate AllBmp(s: string)
  {
    forall i :: 0 <= i < |s| ==> InBmp(s[i])
  }

  /** The characters of `s` in the BMP, in their original order. */
  function KeepBmp(s: string): string
  {
    Filter(InBmp, s)
  }

  /** The sanitized message. */
  function Sanitize(message: string, normalize: string -> Option<string>): (r: string)
    ensures AllBmp(r)
    ensures normalize(KeepBmp(message)).None? ==> forall i :: 0 <= i < |r| ==> IsAscii(r[i])
  {
    match normalize(KeepBmp(message))
    case Some(normalized) => KeepBmp(normalized)
    case None => Filter(IsAscii, message)
  }

  /**
   * The first step keeps exactly the BMP characters of the input: each as often
   * as it occurs, in order (filtering distributes over concatenation), and
   * nothing else.
   */
  lemma KeepBmpExactly(s: string, t: string, c: char)
    ensures multiset(KeepBmp(s))[c] == if InBmp(c) then multiset(s)[c] else 0
    ensures KeepBmp(s + t) == KeepBmp(s) + KeepBmp(t)
    ensures KeepBmp(s) == s <==> AllBmp(s)
  {
    FilterCounts(InBmp, s, c);
    FilterAppend(InBmp, s, t);
    FilterUnchangedIff(InBmp, s);
  }

  /** The fallback keeps exactly the ASCII characters of the original message. */
  lemma FallbackKeepsAscii(message: string, normalize: string -> Option<string>, c: char)
    requires normalize(KeepBmp(message)).None?
    ensures multiset(Sanitize(message, normalize))[c] == if IsAscii(c) then multiset(message)[c] else 0
  {
    FilterCounts(IsAscii, message, c);
  }

  /**
   * A message already inside the BMP (ASCII text in particular) comes out as its
   * normalisation whenever that normalisation is itself inside the BMP.
   */
  lemma SanitizeBmpMessage(message: string, normalize: string -> Option<string>, normalized: string)
    requires AllBmp(message)
    requires normalize(message) == Some(normalized)
    requires AllBmp(normalized)
    ensures Sanitize(message, normalize) == normalized
  {
    FilterUnchangedIff(InBmp, message);
    FilterUnchangedIff(InBmp, normalized);
  }

  /**
   * Sanitizing twice is the same as sanitizing once when, for this message, the
   * normalisation of its BMP part does not raise, stays inside the BMP and is
   * normalised already. This concerns a template that `read_message_from_file`
   * sanitized, before any value is filled in. It fails when normalisation leaves
   * the BMP: see `SanitizeTwiceCanChange`.
   */
  lemma SanitizeTwice(message: string, normalize: string -> Option<string>)
    requires normalize(KeepBmp(message)).Some?
    requires AllBmp(normalize(KeepBmp(message)).value)
    requires normalize(normalize(KeepBmp(message)).value) == normalize(KeepBmp(message))
    ensures Sanitize(Sanitize(message, normalize), normalize) == Sanitize(message, normalize)
  {
    var kept := KeepBmp(message);
    var n := normalize(kept).value;
    FilterUnchangedIff(InBmp, kept);
    FilterUnchangedIff(InBmp, n);
    assert Sanitize(message, normalize) == n;
    assert normalize(n) == Some(n);
    SanitizeBmpMessage(n, normalize, n);
  }

  /**
   * Three facts of the Unicode NFKC tables: U+FA6C decomposes to U+242EE, outside
   * the BMP, and "e" followed by U+0301 composes to U+00E9; other text is taken
   * as normalised already.
   */
  function NfkcSample(s: string): Option<string>
  {
    if s == "e\U{FA6C}\U{0301}" then Some("e\U{242EE}\U{0301}")
    else if s == "e\U{0301}" then Some("\U{00E9}")
    else Some(s)
  }

  /**
   * With those facts, "e", U+FA6C, U+0301 sanitizes to "e", U+0301 and a second
   * sanitization turns that into U+00E9: dropping the character outside the BMP
   * lets the accent compose.
   */
  lemma SanitizeTwiceCanChange()
    ensures Sanitize("e\U{FA6C}\U{0301}", NfkcSample) == "e\U{0301}"
    ensures Sanitize(Sanitize("e\U{FA6C}\U{0301}", NfkcSample), NfkcSample) == "\U{00E9}"
  {
    var m := "e\U{FA6C}\U{0301}";
    FilterUnchangedIff(InBmp, m);
    assert KeepBmp(m) == m;
    var n := "e\U{242EE}\U{0301}";
    assert n == "e\U{242EE}" + "\U{0301}";
    assert KeepBmp(n) == "e\U{0301}" by {
      FilterAppend(InBmp, "e\U{242EE}", "\U{0301}");
      FilterAppend(InBmp, "e", "\U{242EE}");
    }
    FilterUnchangedIff(InBmp, "e\U{0301}");
    FilterUnchangedIff(InBmp, "\U{00E9}");
  }
}
