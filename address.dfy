/**
 * `parseAddress` of main.go: the bare address of a header value, and the two
 * pieces of it on either side of its first `@`.
 *
 * Extracting the bare address (the mailbox syntax of section 3.4 of RFC 5322,
 * display names stripped) is the job of Go's `net/mail.ParseAddress`; it is a
 * parameter here, an arbitrary total function answering the address or None
 * when the text does not parse. `strings.Split` is modelled by `Split`.
 */
module Address {
  import opened Wrappers

  /** `net/mail.ParseAddress`, reduced to the `Address` field of its answer. */
  type MailParser = string -> Option<string>

  /** Position of the first `c` in `s`. */
  function IndexOf(s: string, c: char): (i: nat)
    requires c in s
    ensures i < |s| && s[i] == c && c !in s[..i]
  {
    if s[0] == c then 0
    else
      assert s[1..][..IndexOf(s[1..], c)] == s[1..1 + IndexOf(s[1..], c)];
      1 + IndexOf(s[1..], c)
  }

  /** Go's `strings.Split(s, string(sep))`: the pieces between separators, one more than there are separators. */
  function Split(s: string, sep: char): (parts: seq<string>)
    ensures |parts| >= 1
    ensures sep in s <==> |parts| >= 2
    ensures forall k | 0 <= k < |parts| :: sep !in parts[k]
    decreases |s|
  {
    if sep !in s then [s]
    else
      var i := IndexOf(s, sep);
      [s[..i]] + Split(s[i + 1..], sep)
  }

  /** Go's `strings.Join(parts, string(sep))`. */
  function Join(parts: seq<string>, sep: char): string
    requires |parts| >= 1
  {
    if |parts| == 1 then parts[0] else parts[0] + [sep] + Join(parts[1..], sep)
  }

  /** Splitting loses nothing: joining the pieces back gives the original text. */
  lemma {:induction false} SplitJoin(s: string, sep: char)
    ensures Join(Split(s, sep), sep) == s
    decreases |s|
  {
    if sep in s {
      var i := IndexOf(s, sep);
      var rest := s[i + 1..];
      SplitJoin(rest, sep);
      assert Split(s, sep)[1..] == Split(rest, sep);
      assert s == s[..i] + [sep] + rest;
    }
  }

  /** What `parseAddress` needs not to crash: the text parses, and the address holds an `@`. */
  predicate Parses(parse: MailParser, address: string)
  {
    parse(address).Some? && '@' in parse(address).value
  }

  /**
   * `parseAddress`: the bare address, the text before its first `@`, and the
   * text from there up to the next `@` or the end.
   */
  function ParseAddress(parse: MailParser, address: string): (r: (string, string, string))
    requires Parses(parse, address)
    ensures parse(address) == Some(r.0)
    ensures r.1 + "@" + r.2 <= r.0
    ensures '@' !in r.1 && '@' !in r.2
    ensures |r.1| + 1 + |r.2| == |r.0| || r.0[|r.1| + 1 + |r.2|] == '@'
  {
    var full := parse(address).value;
    var parts := Split(full, '@');
    var i := IndexOf(full, '@');
    assert parts[0] == full[..i];
    var rest := full[i + 1..];
    assert parts[1] == Split(rest, '@')[0];
    assert parts[1] <= rest by {
      if '@' in rest {
        assert parts[1] == rest[..IndexOf(rest, '@')];
      }
    }
    assert full == parts[0] + "@" + rest;
    (full, parts[0], parts[1])
  }

  /** With exactly one `@`, local part and domain rebuild the address. */
  lemma ParseAddressRoundTrip(parse: MailParser, address: string)
    requires Parses(parse, address)
    requires forall i, j | 0 <= i < j < |parse(address).value| ::
      !(parse(address).value[i] == '@' && parse(address).value[j] == '@')
    ensures var (full, local, domain) := ParseAddress(parse, address);
      local + "@" + domain == full
  {
    var (full, local, domain) := ParseAddress(parse, address);
    assert full[|local|] == (local + "@" + domain)[|local|] == '@';
  }
}
