/**
 * The rule the code writer applies to a statement format given with no
 * arguments.  A `$` opens a directive: `$$` is a literal dollar, and `$>`,
 * `$<`, `$[`, `$]`, `$W`, `$Z` steer indentation and line wrapping.  Any
 * other directive (`$L`, `$S`, `$T`, `$N`, an indexed one) needs an argument,
 * and a `$` before anything else, or at the very end, is malformed; in each
 * of these cases the writer throws an unchecked `IllegalArgumentException`.
 */
module CodeFormat {
  /** The characters that, after a `$`, make a directive that takes no argument. */
  const NoArgDirectives: set<char> := {'$', '>', '<', '[', ']', 'W', 'Z'}

  /** The writer accepts `format` with no arguments: every `$` opens an argument-free directive. */
  predicate AcceptedWithoutArgs(format: string)
    decreases |format|
  {
    if |format| == 0 then true
    else if format[0] != '$' then AcceptedWithoutArgs(format[1..])
    else |format| >= 2 && format[1] in NoArgDirectives && AcceptedWithoutArgs(format[2..])
  }

  /** A format without any `$` is always accepted. */
  lemma {:induction false} DollarFreeAccepted(format: string)
    requires '$' !in format
    ensures AcceptedWithoutArgs(format)
  {
    if |format| > 0 {
      assert format[0] in format;
      assert forall k :: 0 <= k < |format| - 1 ==> format[1..][k] == format[k + 1];
      DollarFreeAccepted(format[1..]);
    }
  }

  /** Text without a `$` in front of a format does not change whether it is accepted. */
  lemma {:induction false} AcceptedAfterPlainPrefix(prefix: string, format: string)
    requires '$' !in prefix
    ensures AcceptedWithoutArgs(prefix + format) == AcceptedWithoutArgs(format)
  {
    if |prefix| > 0 {
      assert prefix[0] in prefix;
      assert (prefix + format)[0] == prefix[0];
      assert (prefix + format)[1..] == prefix[1..] + format;
      assert forall k :: 0 <= k < |prefix| - 1 ==> prefix[1..][k] == prefix[k + 1];
      AcceptedAfterPlainPrefix(prefix[1..], format);
    } else {
      assert prefix + format == format;
    }
  }

  /**
   * Text without a `$` after a format does not change whether it is
   * accepted, as long as its first character cannot complete a directive
   * left open at the end of the format.
   */
  lemma {:induction false} AcceptedBeforePlainSuffix(format: string, suffix: string)
    requires |suffix| > 0 && suffix[0] !in NoArgDirectives && '$' !in suffix
    ensures AcceptedWithoutArgs(format + suffix) == AcceptedWithoutArgs(format)
  {
    if |format| == 0 {
      assert format + suffix == suffix;
      DollarFreeAccepted(suffix);
    } else if format[0] != '$' {
      assert (format + suffix)[1..] == format[1..] + suffix;
      AcceptedBeforePlainSuffix(format[1..], suffix);
    } else if |format| == 1 {
      assert (format + suffix)[1] == suffix[0];
    } else {
      assert (format + suffix)[1] == format[1];
      assert (format + suffix)[2..] == format[2..] + suffix;
      AcceptedBeforePlainSuffix(format[2..], suffix);
    }
  }

  /** A simple name such as `Foo$Bar`, legal in Java, is a malformed format. */
  lemma DollarBeforeLetterRefused()
    ensures !AcceptedWithoutArgs("Foo$Bar")
    ensures AcceptedWithoutArgs("Foo$$Bar")
  {
  }
}
