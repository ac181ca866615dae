/**
 * formatZodError (src/handlers/utils/zodUtils.ts): renders the issues of a
 * validation error as one line of text. Each issue's path is joined with ".",
 * a non-empty path is followed by ": " and the message, and the rendered
 * issues are joined with ". ".
 */
module ZodUtils {

  /** One step of an issue's path: an object key or an array index. */
  datatype PathKey = Key(name: string) | Index(position: nat)

  /** A validation issue: where in the value it is, and what is wrong there. */
  datatype Issue = Issue(path: seq<PathKey>, message: string)

  function Digit(d: nat): (c: char)
    requires d < 10
    ensures '0' <= c <= '9' && c as int - '0' as int == d
  {
    ('0' as int + d) as char
  }

  /** The decimal numeral of n, as JavaScript writes a number when it joins a path. */
  function Decimal(n: nat): (r: string)
    ensures |r| >= 1
    ensures forall i :: 0 <= i < |r| ==> '0' <= r[i] <= '9'
    ensures (r[0] == '0') == (n == 0)
  {
    if n < 10 then [Digit(n)] else Decimal(n / 10) + [Digit(n % 10)]
  }

  /** The number a string of decimal digits stands for. */
  function DecimalValue(s: string): nat
    requires forall i :: 0 <= i < |s| ==> '0' <= s[i] <= '9'
  {
    if s == [] then 0 else 10 * DecimalValue(s[..|s| - 1]) + (s[|s| - 1] as int - '0' as int)
  }

  /** An index in a path is written so that it reads back as the same index. */
  lemma {:induction false} DecimalRoundTrip(n: nat)
    ensures DecimalValue(Decimal(n)) == n
  {
    if n >= 10 {
      var s := Decimal(n);
      assert s[..|s| - 1] == Decimal(n / 10);
      DecimalRoundTrip(n / 10);
    }
  }

  /** Array.prototype.join: the parts in order, with sep between each two neighbours. */
  function Join(parts: seq<string>, sep: string): string
  {
    if |parts| == 0 then ""
    else if |parts| == 1 then parts[0]
    else parts[0] + sep + Join(parts[1..], sep)
  }

  /** Concatenation of a list of strings. */
  function Concat(parts: seq<string>): string
  {
    if parts == [] then "" else parts[0] + Concat(parts[1..])
  }

  /** Each part followed by sep, except the last: the n - 1 inserted separators. */
  function WithSeparators(parts: seq<string>, sep: string): seq<string>
  {
    seq(|parts|, i requires 0 <= i < |parts| => if i < |parts| - 1 then parts[i] + sep else parts[i])
  }

  /** Sum of the lengths of the parts. */
  function TotalLength(parts: seq<string>): nat
  {
    if parts == [] then 0 else |parts[0]| + TotalLength(parts[1..])
  }

  /** Joining is the concatenation of the parts with a separator after every part but the last. */
  lemma {:induction false} JoinIsSeparatedConcat(parts: seq<string>, sep: string)
    ensures Join(parts, sep) == Concat(WithSeparators(parts, sep))
  {
    var w := WithSeparators(parts, sep);
    if |parts| == 1 {
      assert w[1..] == [];
    } else if |parts| >= 2 {
      assert w[1..] == WithSeparators(parts[1..], sep);
      JoinIsSeparatedConcat(parts[1..], sep);
      assert Concat(w) == (parts[0] + sep) + Concat(w[1..]);
    }
  }

  /** Joining one more part appends a separator and that part: order is kept. */
  lemma {:induction false} JoinAppend(parts: seq<string>, last: string, sep: string)
    requires |parts| >= 1
    ensures Join(parts + [last], sep) == Join(parts, sep) + sep + last
  {
    if |parts| == 1 {
      assert (parts + [last])[1..] == [last];
    } else {
      assert (parts + [last])[1..] == parts[1..] + [last];
      JoinAppend(parts[1..], last, sep);
    }
  }

  /** n parts joined have the parts' length plus n - 1 separators. */
  lemma {:induction false} JoinLength(parts: seq<string>, sep: string)
    requires |parts| >= 1
    ensures |Join(parts, sep)| == TotalLength(parts) + (|parts| - 1) * |sep|
  {
    if |parts| >= 2 {
      JoinLength(parts[1..], sep);
      assert (|parts| - 1) * |sep| == (|parts| - 2) * |sep| + |sep|;
    }
  }

  function KeyText(key: PathKey): string
  {
    match key
    case Key(name) => name
    case Index(position) => Decimal(position)
  }

  function KeyTexts(path: seq<PathKey>): seq<string>
  {
    seq(|path|, i requires 0 <= i < |path| => KeyText(path[i]))
  }

  /** The readable path, e.g. "user.address.street". */
  function PathText(path: seq<PathKey>): string
  {
    Join(KeyTexts(path), ".")
  }

  /**
   * The joined path is empty exactly for the empty path and for a path whose
   * only step is the empty key; every other path is rendered before the message.
   */
  lemma PathTextEmpty(path: seq<PathKey>)
    ensures PathText(path) == "" <==> (path == [] || path == [Key("")])
  {
    var texts := KeyTexts(path);
    if |path| >= 2 {
      assert PathText(path) == texts[0] + "." + Join(texts[1..], ".");
    } else if |path| == 1 {
      assert PathText(path) == KeyText(path[0]);
      if path[0].Key? && path[0].name == "" {
        assert path == [Key("")];
      }
    }
  }

  /** One issue as formatZodError renders it. */
  function FormatIssue(issue: Issue): (r: string)
    ensures issue.path == [] ==> r == issue.message
    ensures issue.path != [] && issue.path != [Key("")] ==>
              r == PathText(issue.path) + ": " + issue.message
    ensures issue.path == [Key("")] ==> r == issue.message
  {
    PathTextEmpty(issue.path);
    var path := PathText(issue.path);
    if path != "" then path + ": " + issue.message else issue.message
  }

  function Rendered(issues: seq<Issue>): seq<string>
  {
    seq(|issues|, i requires 0 <= i < |issues| => FormatIssue(issues[i]))
  }

  /** formatZodError: the rendered issues, in their order, joined with ". ". */
  function FormatZodError(issues: seq<Issue>): (r: string)
    ensures issues == [] ==> r == ""
    ensures |issues| == 1 ==> r == FormatIssue(issues[0])
  {
    Join(Rendered(issues), ". ")
  }

  /** The output is the rendered issues with ". " after each but the last. */
  lemma FormatZodErrorSeparated(issues: seq<Issue>)
    ensures FormatZodError(issues) == Concat(WithSeparators(Rendered(issues), ". "))
  {
    JoinIsSeparatedConcat(Rendered(issues), ". ");
  }

  /** A later issue is rendered after all earlier ones, after one ". ". */
  lemma FormatZodErrorAppend(issues: seq<Issue>, last: Issue)
    requires issues != []
    ensures FormatZodError(issues + [last]) == FormatZodError(issues) + ". " + FormatIssue(last)
  {
    assert Rendered(issues + [last]) == Rendered(issues) + [FormatIssue(last)];
    JoinAppend(Rendered(issues), FormatIssue(last), ". ");
  }

  /** n issues take their rendered length plus exactly n - 1 separators of two characters. */
  lemma FormatZodErrorLength(issues: seq<Issue>)
    requires issues != []
    ensures |FormatZodError(issues)| == TotalLength(Rendered(issues)) + 2 * (|issues| - 1)
  {
    JoinLength(Rendered(issues), ". ");
  }
}
