/** The `.env` loader of js/env-loader.js: a line-oriented `KEY=value` parser
    and the policy that every failure to obtain the text yields an empty
    configuration. */
module EnvLoader {
  import opened Optional
  import opened Text

  /** One `KEY=value` assignment read from a line. */
  datatype Entry = Entry(key: string, value: string)

  /** What the request for the `.env` file came to: a successful response
      carrying its body, a response whose `ok` flag is false, or an exception
      raised by `fetch` or by reading the body. */
  datatype FetchResult = Ok(text: string) | NotOk | Threw

  predicate IsQuote(c: char) {
    c == '"' || c == '\''
  }

  /** The value with the quote stripping of `replace(/^["']|["']$/g, "")`:
      one leading quote and one trailing quote are removed, each on its own,
      whether or not they match. A value that is a single quote character
      loses it. */
  function StripQuotes(v: string): (r: string)
    ensures var lead := if |v| > 0 && IsQuote(v[0]) then 1 else 0;
            && lead + |r| <= |v| <= lead + |r| + 1
            && r == v[lead..lead + |r|]
            && (lead + |r| < |v| <==> lead < |v| && IsQuote(v[|v| - 1]))
  {
    var a := if |v| > 0 && IsQuote(v[0]) then v[1..] else v;
    if |a| > 0 && IsQuote(a[|a| - 1]) then a[..|a| - 1] else a
  }

  /** A line that carries no assignment however it is written: blank,
      whitespace only, or a comment once trimmed. */
  predicate IsSkipped(line: string) {
    var t := Trim(line);
    t == [] || t[0] == '#'
  }

  /** The entry one line of the file contributes, if any: the line is split at
      its first `=`, which must not be its first character; key and value are
      trimmed, and the value loses its surrounding quotes. */
  function ParseLine(line: string): (r: Option<Entry>)
    ensures r.None? <==> IsSkipped(line) || '=' !in line || line[0] == '='
  {
    if IsSkipped(line) then None
    else
      var eq := IndexOf(line, '=');
      if eq > 0 then Some(Entry(Trim(line[..eq]), StripQuotes(Trim(line[eq + 1..]))))
      else None
  }

  /** The entry of a line is cut at the line's first `=`; its key carries no
      `=` and no surrounding whitespace. */
  lemma ParseLineSpec(line: string)
    ensures ParseLine(line).Some? ==>
              exists i :: 0 < i < |line| && line[i] == '=' && '=' !in line[..i]
                          && ParseLine(line).value
                             == Entry(Trim(line[..i]), StripQuotes(Trim(line[i + 1..])))
    ensures ParseLine(line).Some? ==>
              var k := ParseLine(line).value.key;
              '=' !in k && Trim(k) == k
  {
    if ParseLine(line).Some? {
      TrimmedKeyShape(line[..IndexOf(line, '=')]);
    }
  }

  /** A key cut from an `=`-free prefix and trimmed has no `=` and is its own trim. */
  lemma TrimmedKeyShape(prefix: string)
    requires '=' !in prefix
    ensures '=' !in Trim(prefix)
    ensures Trim(Trim(prefix)) == Trim(prefix)
  {
    var i, j := TrimBounds(prefix);
    var k := prefix[i..j];
    assert forall m :: 0 <= m < |k| ==> k[m] == prefix[i + m];
    TrimmedIsFixed(k);
  }

  /** The line `line` assigns the key `k`. */
  predicate Assigns(line: string, k: string) {
    var e := ParseLine(line);
    e.Some? && e.value.key == k
  }

  /** Line `i` is the last of `lines` that assigns `k`. */
  predicate LastAssignment(lines: seq<string>, i: int, k: string) {
    && 0 <= i < |lines|
    && Assigns(lines[i], k)
    && forall j :: i < j < |lines| ==> !Assigns(lines[j], k)
  }

  /** `variables[key] = value` on a dictionary. */
  function Store(m: map<string, string>, e: Option<Entry>): map<string, string> {
    match e
    case None => m
    case Some(Entry(k, v)) => m[k := v]
  }

  /** The entries of a sequence of lines, stored in turn: a later entry
      overwrites an earlier one with the same key. */
  function StoreAll(es: seq<Option<Entry>>): map<string, string> {
    if es == [] then map[]
    else Store(StoreAll(es[..|es| - 1]), es[|es| - 1])
  }

  /** `f` applied to each line, in order. */
  function EachLine<T>(f: string -> T, lines: seq<string>): (r: seq<T>)
    ensures |r| == |lines|
  {
    seq(|lines|, i requires 0 <= i < |lines| => f(lines[i]))
  }

  lemma EachLineConcat<T>(f: string -> T, a: seq<string>, b: seq<string>)
    ensures EachLine(f, a + b) == EachLine(f, a) + EachLine(f, b)
  {
    var ab := a + b;
    forall i | 0 <= i < |ab| ensures EachLine(f, ab)[i] == (EachLine(f, a) + EachLine(f, b))[i] {
      if i < |a| {
        assert ab[i] == a[i];
      } else {
        assert ab[i] == b[i - |a|];
      }
    }
  }

  /** The entry of each line, in order. */
  function Entries(lines: seq<string>): (es: seq<Option<Entry>>)
    ensures |es| == |lines|
  {
    EachLine(ParseLine, lines)
  }

  /** The `forEach` over the lines: each line's entry, stored in turn. */
  function ParseLines(lines: seq<string>): map<string, string> {
    StoreAll(Entries(lines))
  }

  /** The whole parser: split at every line feed, then fold the lines. */
  function Parse(text: string): map<string, string> {
    ParseLines(Split(text, '\n'))
  }

  /** `loadEnvVariables`: the parsed body of a successful response, and the
      empty configuration for a failed response or a raised exception. */
  function Load(r: FetchResult): (m: map<string, string>)
    ensures r.Ok? ==> m == Parse(r.text)
    ensures !r.Ok? ==> m == map[]
  {
    match r
    case Ok(text) => Parse(text)
    case NotOk => map[]
    case Threw => map[]
  }

  // ---------------------------------------------------------------------
  // Quote stripping

  /** A quote on each side is removed, matched or not, and only one: quotes
      inside `s`, even at its ends, are kept. */
  lemma StripQuotesOfQuoted(open: char, s: string, close: char)
    requires IsQuote(open) && IsQuote(close)
    ensures StripQuotes([open] + s + [close]) == s
  {
    var v := [open] + s + [close];
    assert v[1..] == s + [close];
    assert (s + [close])[..|s|] == s;
  }

  /** A value that neither starts nor ends with a quote is left as it is. */
  lemma StripQuotesUnquoted(s: string)
    requires s == [] || (!IsQuote(s[0]) && !IsQuote(s[|s| - 1]))
    ensures StripQuotes(s) == s
  {
  }

  /** A value made of one quote character becomes empty: the leading quote is
      removed and nothing is left for the trailing one. */
  lemma StripQuotesLoneQuote(q: char)
    requires IsQuote(q)
    ensures StripQuotes([q]) == []
  {
  }

  // ---------------------------------------------------------------------
  // Single lines

  /** A line whose first character is not whitespace, `#` or `=` and whose key
      part has no `=` is split at the `=` after the key: every later `=` stays
      in the value. */
  lemma SplitAtFirstEquals(k: string, v: string)
    requires k != [] && !IsSpace(k[0]) && k[0] != '#' && '=' !in k
    ensures ParseLine(k + "=" + v) == Some(Entry(Trim(k), StripQuotes(Trim(v))))
  {
    var line := k + "=" + v;
    IndexOfAfter(k, v, '=');
    assert line[..|k|] == k;
    assert line[|k| + 1..] == v;
    assert line[0] == k[0];
    TrimKeepsFirst(line);
  }

  /** A trailing carriage return, as left by CRLF line ends, changes nothing. */
  lemma CarriageReturnIgnored(line: string)
    ensures ParseLine(line + "\r") == ParseLine(line)
  {
    var l := line + "\r";
    TrimIgnoresTrailingSpace(line, '\r');
    IndexOfAppendOther(line, '=', '\r');
    var e := IndexOf(line, '=');
    assert e < 0 <==> '=' !in l;
    if e > 0 {
      assert l[..e] == line[..e];
      assert l[e + 1..] == line[e + 1..] + "\r";
      TrimIgnoresTrailingSpace(line[e + 1..], '\r');
    } else if e == 0 {
      assert l[0] == line[0];
    }
  }

  /** A line that starts with whitespace and then `=` passes the `> 0` test
      and assigns the empty key. */
  lemma EmptyKeyAfterIndent()
    ensures ParseLine("  =v") == Some(Entry("", "v"))
  {
    assert !IsSkipped("  =v");
    assert IndexOf("  =v", '=') == 2;
    assert Trim("  =v"[..2]) == "";
    assert StripQuotes(Trim("  =v"[3..])) == "v";
  }

  // ---------------------------------------------------------------------
  // Whole files

  /** Entry `i` is the last of `es` with key `k`. */
  predicate LastEntry(es: seq<Option<Entry>>, i: int, k: string) {
    && 0 <= i < |es|
    && es[i].Some? && es[i].value.key == k
    && forall j :: i < j < |es| ==> !(es[j].Some? && es[j].value.key == k)
  }

  /** Exactly the keys of some entry are stored. */
  lemma {:induction false} StoreAllKeys(es: seq<Option<Entry>>)
    ensures forall k :: k in StoreAll(es) <==>
                          exists i :: 0 <= i < |es| && es[i].Some? && es[i].value.key == k
    decreases |es|
  {
    if es != [] {
      var init := es[..|es| - 1];
      StoreAllKeys(init);
      assert forall i :: 0 <= i < |init| ==> init[i] == es[i];
    }
  }

  /** Every stored value is the one of the last entry with its key. */
  lemma {:induction false} StoreAllLastWins(es: seq<Option<Entry>>)
    ensures forall k :: k in StoreAll(es) ==>
                          exists i :: LastEntry(es, i, k) && es[i].value.value == StoreAll(es)[k]
    decreases |es|
  {
    if es != [] {
      var n := |es| - 1;
      var init := es[..n];
      StoreAllLastWins(init);
      var m := StoreAll(es);
      forall k | k in m
        ensures exists i :: LastEntry(es, i, k) && es[i].value.value == m[k]
      {
        if es[n].Some? && es[n].value.key == k {
          assert LastEntry(es, n, k);
        } else {
          var i :| LastEntry(init, i, k) && init[i].value.value == StoreAll(init)[k];
          assert init[i] == es[i];
          assert LastEntry(es, i, k);
        }
      }
    }
  }

  /** An absent entry can be dropped from anywhere in the sequence. */
  lemma {:induction false} StoreAllInert(before: seq<Option<Entry>>, after: seq<Option<Entry>>)
    ensures StoreAll(before + [None] + after) == StoreAll(before + after)
    decreases |after|
  {
    if after == [] {
      assert (before + [None])[..|before|] == before;
      assert before + [None] + [] == before + [None];
      assert before + [] == before;
    } else {
      var n := |after| - 1;
      StoreAllInert(before, after[..n]);
      assert (before + [None] + after)[..|before| + 1 + n] == before + [None] + after[..n];
      assert (before + after)[..|before| + n] == before + after[..n];
    }
  }

  /** Exactly the keys assigned by some line are present. */
  lemma ParseLinesKeys(lines: seq<string>)
    ensures forall k :: k in ParseLines(lines) <==>
                          exists i :: 0 <= i < |lines| && Assigns(lines[i], k)
  {
    var es := Entries(lines);
    assert ParseLines(lines) == StoreAll(es);
    StoreAllKeys(es);
    forall k
      ensures k in StoreAll(es) <==> exists i :: 0 <= i < |lines| && Assigns(lines[i], k)
    {
      if k in StoreAll(es) {
        var i :| 0 <= i < |es| && es[i].Some? && es[i].value.key == k;
        assert Assigns(lines[i], k);
      }
      if exists i :: 0 <= i < |lines| && Assigns(lines[i], k) {
        var i :| 0 <= i < |lines| && Assigns(lines[i], k);
        assert es[i].Some? && es[i].value.key == k;
      }
    }
  }

  /** Every stored value comes from the last line that assigns its key. */
  lemma ParseLinesLastWins(lines: seq<string>)
    ensures forall k :: k in ParseLines(lines) ==>
                          exists i :: LastAssignment(lines, i, k)
                                      && ParseLine(lines[i]).value.value == ParseLines(lines)[k]
  {
    var es := Entries(lines);
    var m := StoreAll(es);
    StoreAllLastWins(es);
    forall k | k in m
      ensures exists i :: LastAssignment(lines, i, k) && ParseLine(lines[i]).value.value == m[k]
    {
      var i :| LastEntry(es, i, k) && es[i].value.value == m[k];
      LastEntryIsLastAssignment(lines, i, k);
    }
  }

  lemma LastEntryIsLastAssignment(lines: seq<string>, i: int, k: string)
    requires LastEntry(Entries(lines), i, k)
    ensures LastAssignment(lines, i, k)
  {
    var es := Entries(lines);
    forall j | i < j < |lines| ensures !Assigns(lines[j], k) {
      assert es[j] == ParseLine(lines[j]);
    }
  }

  /** A line that contributes no entry can be dropped from anywhere in the file. */
  lemma InertLine(before: seq<string>, line: string, after: seq<string>)
    requires ParseLine(line).None?
    ensures ParseLines(before + [line] + after) == ParseLines(before + after)
  {
    EntriesConcat(before, [line]);
    EntriesConcat(before + [line], after);
    EntriesConcat(before, after);
    assert Entries([line]) == [None];
    StoreAllInert(Entries(before), Entries(after));
  }

  lemma EntriesConcat(a: seq<string>, b: seq<string>)
    ensures Entries(a + b) == Entries(a) + Entries(b)
  {
    EachLineConcat(ParseLine, a, b);
  }

  /** Appending a line to the text adds that line's entry on top of what the
      text parsed to before. */
  lemma ParseAppendLine(text: string, line: string)
    requires '\n' !in line
    ensures Parse(text + "\n" + line) == Store(Parse(text), ParseLine(line))
  {
    var parts := Split(text, '\n');
    var all := parts + [line];
    JoinAppend(parts, line, '\n');
    assert Join(all, '\n') == text + "\n" + line;
    assert forall i :: 0 <= i < |all| ==> '\n' !in all[i];
    SplitJoin(all, '\n');
    EntriesConcat(parts, [line]);
    var es := Entries(parts) + [ParseLine(line)];
    assert Entries(all) == es;
    assert es[..|es| - 1] == Entries(parts);
  }

  lemma {:induction false} JoinAppend(parts: seq<string>, last: string, sep: char)
    requires |parts| >= 1
    ensures Join(parts + [last], sep) == Join(parts, sep) + [sep] + last
    decreases |parts|
  {
    if |parts| > 1 {
      JoinAppend(parts[1..], last, sep);
      assert (parts + [last])[1..] == parts[1..] + [last];
    }
  }

  /** Nothing is stored exactly when every entry is absent. */
  lemma StoreAllEmptyIff(es: seq<Option<Entry>>)
    ensures StoreAll(es) == map[] <==> forall i :: 0 <= i < |es| ==> es[i].None?
  {
    StoreAllKeys(es);
    if forall i :: 0 <= i < |es| ==> es[i].None? {
      assert StoreAll(es).Keys == {};
    } else {
      var i :| 0 <= i < |es| && es[i].Some?;
      assert es[i].value.key in StoreAll(es);
    }
  }

  /** A file parses to the empty configuration exactly when none of its
      lines assigns anything. */
  lemma ParseLinesEmptyIff(lines: seq<string>)
    ensures ParseLines(lines) == map[] <==>
              forall i :: 0 <= i < |lines| ==> ParseLine(lines[i]).None?
  {
    var es := Entries(lines);
    StoreAllEmptyIff(es);
    assert forall i :: 0 <= i < |lines| ==> es[i] == ParseLine(lines[i]);
  }

  /** The loader yields the empty configuration exactly when the request
      failed or no line of the body assigns anything. */
  lemma LoadEmptyIff(r: FetchResult)
    ensures Load(r) == map[] <==>
              (!r.Ok? || forall line :: line in Split(r.text, '\n') ==> ParseLine(line).None?)
  {
    if r.Ok? {
      var lines := Split(r.text, '\n');
      ParseLinesEmptyIff(lines);
      assert (forall line :: line in lines ==> ParseLine(line).None?)
             <==> (forall i :: 0 <= i < |lines| ==> ParseLine(lines[i]).None?);
    }
  }

  /** The keys of a parsed file are exactly those some line of it assigns;
      `lines` names the file's lines. */
  lemma ParseKeys(text: string, lines: seq<string>)
    requires lines == Split(text, '\n')
    ensures forall k :: k in Parse(text) <==> exists i :: 0 <= i < |lines| && Assigns(lines[i], k)
  {
    ParseLinesKeys(lines);
    assert Parse(text) == ParseLines(lines);
  }

  /** Every value of a parsed file is the one of the last line assigning its
      key; `lines` names the file's lines. */
  lemma ParseLastWins(text: string, lines: seq<string>)
    requires lines == Split(text, '\n')
    ensures forall k :: k in Parse(text) ==>
                          exists i :: LastAssignment(lines, i, k)
                                      && ParseLine(lines[i]).value.value == Parse(text)[k]
  {
    ParseLinesLastWins(lines);
    assert Parse(text) == ParseLines(lines);
  }

  /** A line `k=v` with an unpadded `=`-free key that does not start with `#`,
      and an unpadded value, assigns `v` without its quotes to `k`. */
  lemma PlainLine(k: string, v: string)
    requires k != [] && !IsSpace(k[0]) && !IsSpace(k[|k| - 1]) && k[0] != '#' && '=' !in k
    requires v == [] || (!IsSpace(v[0]) && !IsSpace(v[|v| - 1]))
    ensures ParseLine(k + "=" + v) == Some(Entry(k, StripQuotes(v)))
  {
    SplitAtFirstEquals(k, v);
    TrimmedIsFixed(k);
    TrimmedIsFixed(v);
  }

  // ---------------------------------------------------------------------
  // The result object as written: a plain JavaScript object

  /** The one key a plain object `{}` does not take as an own property:
      `variables["__proto__"] = value` runs the inherited `__proto__` setter,
      which ignores a string argument. */
  const ProtoKey: string := "__proto__"

  /** `variables[key] = value` on the plain object the source uses. */
  function StoreAsWritten(m: map<string, string>, e: Option<Entry>): map<string, string> {
    match e
    case None => m
    case Some(Entry(k, v)) => if k == ProtoKey then m else m[k := v]
  }

  function StoreAllAsWritten(es: seq<Option<Entry>>): map<string, string> {
    if es == [] then map[]
    else StoreAsWritten(StoreAllAsWritten(es[..|es| - 1]), es[|es| - 1])
  }

  /** The parser with its result held in a plain object, as the source has it. */
  function ParseAsWritten(text: string): map<string, string> {
    StoreAllAsWritten(Entries(Split(text, '\n')))
  }

  /** The plain object holds what the dictionary holds, less the key `__proto__`. */
  lemma {:induction false} AsWrittenDropsProto(es: seq<Option<Entry>>)
    ensures StoreAllAsWritten(es) == StoreAll(es) - {ProtoKey}
    decreases |es|
  {
    if es != [] {
      AsWrittenDropsProto(es[..|es| - 1]);
    }
  }

  /** A one-line file assigning `__proto__` loses its only entry in the plain
      object, while the dictionary keeps it. */
  lemma ProtoLineLost(v: string)
    requires '\n' !in v
    ensures ParseAsWritten(ProtoKey + "=" + v) == map[]
    ensures Parse(ProtoKey + "=" + v) == map[ProtoKey := StripQuotes(Trim(v))]
  {
    var line := ProtoKey + "=" + v;
    assert '\n' !in line;
    SingleLine(line);
    ProtoLineEntry(v);
  }

  lemma ProtoLineEntry(v: string)
    ensures ParseLine(ProtoKey + "=" + v) == Some(Entry(ProtoKey, StripQuotes(Trim(v))))
  {
    SplitAtFirstEquals(ProtoKey, v);
    TrimmedIsFixed(ProtoKey);
  }

  /** A text without line feeds is one line, parsed on its own. */
  lemma SingleLine(line: string)
    requires '\n' !in line
    ensures Parse(line) == Store(map[], ParseLine(line))
    ensures ParseAsWritten(line) == StoreAsWritten(map[], ParseLine(line))
  {
    assert Split(line, '\n') == [line];
    var es := [ParseLine(line)];
    assert Entries([line]) == es;
    assert es[..0] == [];
    assert StoreAll(es) == Store(StoreAll(es[..0]), es[0]);
    assert StoreAllAsWritten(es) == StoreAsWritten(StoreAllAsWritten(es[..0]), es[0]);
  }

  /** `loadEnvVariables` as written: the plain-object parser on success. */
  function LoadAsWritten(r: FetchResult): map<string, string> {
    match r
    case Ok(text) => ParseAsWritten(text)
    case NotOk => map[]
    case Threw => map[]
  }

  /** The loader as written differs from `Load` only in losing `__proto__`. */
  lemma LoadAsWrittenDropsProto(r: FetchResult)
    ensures LoadAsWritten(r) == Load(r) - {ProtoKey}
  {
    if r.Ok? {
      AsWrittenDropsProto(Entries(Split(r.text, '\n')));
    }
  }
}
