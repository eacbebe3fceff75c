/** The flat listing of direct dependencies (`print_dependencies` in
    `depgraph2.py`, the body of `print_direct_dependencies` in `depgraph3.py`),
    as the sequence of lines it prints. */
module Listing {
  import opened Wrappers
  import opened Text
  import opened Dependencies

  const NotFound: string := "Прямые зависимости не найдены"
  /** `"-" * 60`, written out. */
  const Rule: string := "------------------------------------------------------------"

  /** `f"{i:2}. {group}:{artifact}:{version}"`. */
  function NumberedLine(i: nat, d: Dep): string
  {
    Pad2(i) + ". " + Composite(d)
  }

  /** The printed lines: the "not found" message for an empty list, otherwise
      a blank line, the count, a rule, one numbered line per record and a rule. */
  function DependencyListing(deps: seq<Dep>): seq<string>
  {
    if deps == [] then [NotFound]
    else
      ["", "Прямые зависимости (" + Decimal(|deps|) + "):", Rule] +
      seq(|deps|, i requires 0 <= i < |deps| => NumberedLine(i + 1, deps[i])) +
      [Rule]
  }

  /** Leading blanks removed. */
  function DropSpaces(s: string): (r: string)
    ensures |r| <= |s|
  {
    if s != [] && s[0] == ' ' then DropSpaces(s[1..]) else s
  }

  /** The longest prefix of decimal digits. */
  function TakeDigits(s: string): (r: string)
    ensures r <= s
    ensures forall i :: 0 <= i < |r| ==> '0' <= r[i] <= '9'
  {
    if s != [] && '0' <= s[0] <= '9' then [s[0]] + TakeDigits(s[1..]) else []
  }

  /** Reads a listing line back as its number and its `g:a:v` text. */
  function ParseNumberedLine(line: string): Option<(nat, string)>
  {
    var s := DropSpaces(line);
    var digits := TakeDigits(s);
    var rest := s[|digits|..];
    if digits != [] && ". " <= rest then Some((ParseDecimal(digits), rest[2..])) else None
  }

  lemma {:induction false} TakeDigitsPrefix(d: string, rest: string)
    requires forall i :: 0 <= i < |d| ==> '0' <= d[i] <= '9'
    requires rest != [] && rest[0] == '.'
    ensures TakeDigits(d + rest) == d
  {
    if d != [] {
      assert (d + rest)[1..] == d[1..] + rest;
      TakeDigitsPrefix(d[1..], rest);
    } else {
      assert d + rest == rest;
    }
  }

  /** Dropping the padding blank of `Pad2(i) + tail` leaves the digits of `i`
      followed by `tail`. */
  lemma PadDropped(i: nat, tail: string)
    ensures DropSpaces(Pad2(i) + tail) == Decimal(i) + tail
  {
    var dec := Decimal(i);
    var s := dec + tail;
    assert s[0] == dec[0];
    assert DropSpaces(s) == s;
    if |dec| < 2 {
      var line := " " + dec + tail;
      assert line[1..] == s;
      assert Pad2(i) + tail == line;
    }
  }

  /** `Pad2(i) + ". " + text` reads back as `i` and `text`. */
  lemma PaddedRoundTrip(i: nat, text: string)
    ensures ParseNumberedLine(Pad2(i) + ". " + text) == Some((i, text))
  {
    var dec := Decimal(i);
    var tail := ". " + text;
    var line := Pad2(i) + ". " + text;
    assert line == Pad2(i) + tail;
    PadDropped(i, tail);
    var s := dec + tail;
    assert DropSpaces(line) == s;
    TakeDigitsPrefix(dec, tail);
    assert TakeDigits(s) == dec;
    assert s[|dec|..] == tail;
    assert ". " <= tail && tail[2..] == text;
    DecimalRoundTrip(i);
    assert ParseDecimal(dec) == i;
  }

  /** A numbered line reads back as the number and the record it was made from. */
  lemma NumberedLineRoundTrip(i: nat, d: Dep)
    ensures ParseNumberedLine(NumberedLine(i, d)) == Some((i, Composite(d)))
  {
    PaddedRoundTrip(i, Composite(d));
  }

  /** The numbered lines of a non-empty listing, between its three heading
      lines and its closing rule. */
  lemma ListingBody(deps: seq<Dep>, k: nat)
    requires k < |deps|
    ensures |DependencyListing(deps)| == |deps| + 4
    ensures DependencyListing(deps)[k + 3] == NumberedLine(k + 1, deps[k])
  {
    var head := ["", "Прямые зависимости (" + Decimal(|deps|) + "):", Rule];
    var body := seq(|deps|, i requires 0 <= i < |deps| => NumberedLine(i + 1, deps[i]));
    assert DependencyListing(deps) == head + body + [Rule];
    assert (head + body + [Rule])[k + 3] == body[k];
  }

  /** The listing has the message alone for an empty list, otherwise four
      framing lines around one line per record, the k-th of which reads back
      as the number k + 1 and the k-th record. */
  lemma ListingShape(deps: seq<Dep>)
    ensures deps == [] ==> DependencyListing(deps) == [NotFound]
    ensures deps != [] ==> |DependencyListing(deps)| == |deps| + 4
    ensures deps != [] ==> forall k :: 0 <= k < |deps| ==>
      ParseNumberedLine(DependencyListing(deps)[k + 3]) == Some((k + 1, Composite(deps[k])))
  {
    if deps != [] {
      ListingBody(deps, 0);
      forall k | 0 <= k < |deps|
        ensures ParseNumberedLine(DependencyListing(deps)[k + 3]) == Some((k + 1, Composite(deps[k])))
      {
        ListingBody(deps, k);
        NumberedLineRoundTrip(k + 1, deps[k]);
      }
    }
  }
}
