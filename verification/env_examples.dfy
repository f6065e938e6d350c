/** A worked example of the `.env` parser: a quoted value, a comment line and
    a plain value. */
module EnvExamples {
  import opened Optional
  import opened Text
  import opened EnvLoader

  /** The example file with a quoted value, a comment and a plain value. */
  lemma ParseExample()
    ensures Parse("FOO=\"bar\"\n# comment\nBAZ=qux") == map["FOO" := "bar", "BAZ" := "qux"]
  {
    ExampleSplit();
    ExampleEntries();
    ExampleStore();
  }

  lemma ExampleSplit()
    ensures Split("FOO=\"bar\"\n# comment\nBAZ=qux", '\n') == ["FOO=\"bar\"", "# comment", "BAZ=qux"]
  {
    var lines := ["FOO=\"bar\"", "# comment", "BAZ=qux"];
    ExampleJoin();
    ExampleLinesHaveNoFeed();
    SplitJoin(lines, '\n');
  }

  lemma ExampleJoin()
    ensures Join(["FOO=\"bar\"", "# comment", "BAZ=qux"], '\n') == "FOO=\"bar\"\n# comment\nBAZ=qux"
  {
    assert Join(["BAZ=qux"], '\n') == "BAZ=qux";
    assert Join(["# comment", "BAZ=qux"], '\n') == "# comment\nBAZ=qux";
  }

  lemma ExampleLinesHaveNoFeed()
    ensures forall i :: 0 <= i < 3 ==> '\n' !in ["FOO=\"bar\"", "# comment", "BAZ=qux"][i]
  {
    assert '\n' !in "FOO=\"bar\"";
    assert '\n' !in "# comment";
    assert '\n' !in "BAZ=qux";
  }

  lemma ExampleEntries()
    ensures Entries(["FOO=\"bar\"", "# comment", "BAZ=qux"])
            == [Some(Entry("FOO", "bar")), None, Some(Entry("BAZ", "qux"))]
  {
    EntriesOfThree("FOO=\"bar\"", "# comment", "BAZ=qux");
    QuotedExampleLine();
    PlainExampleLine();
    CommentExampleLine();
  }

  lemma EntriesOfThree(a: string, b: string, c: string)
    ensures Entries([a, b, c]) == [ParseLine(a), ParseLine(b), ParseLine(c)]
  {
  }

  /** `# comment`: a comment line contributes nothing. */
  lemma CommentExampleLine()
    ensures ParseLine("# comment") == None
  {
    assert IsSkipped("# comment");
  }

  lemma ExampleStore()
    ensures StoreAll([Some(Entry("FOO", "bar")), None, Some(Entry("BAZ", "qux"))])
            == map["FOO" := "bar", "BAZ" := "qux"]
  {
    var es := [Some(Entry("FOO", "bar")), None, Some(Entry("BAZ", "qux"))];
    assert es[..2] == [es[0], es[1]];
    assert es[..2][..1] == [es[0]];
    assert [es[0]][..0] == [];
    assert StoreAll([es[0]]) == map["FOO" := "bar"];
    assert StoreAll(es[..2]) == map["FOO" := "bar"];
  }

  /** `FOO="bar"`: the surrounding double quotes are stripped. */
  lemma QuotedExampleLine()
    ensures ParseLine("FOO=\"bar\"") == Some(Entry("FOO", "bar"))
  {
    PlainLine("FOO", ['"'] + "bar" + ['"']);
    QuotedExampleValue();
    QuotedExampleText();
  }

  lemma QuotedExampleValue()
    ensures StripQuotes(['"'] + "bar" + ['"']) == "bar"
  {
    StripQuotesOfQuoted('"', "bar", '"');
  }

  lemma QuotedExampleText()
    ensures "FOO" + "=" + (['"'] + "bar" + ['"']) == "FOO=\"bar\""
  {
  }

  /** `BAZ=qux`: an unquoted value is kept as written. */
  lemma PlainExampleLine()
    ensures ParseLine("BAZ=qux") == Some(Entry("BAZ", "qux"))
  {
    PlainLine("BAZ", "qux");
    PlainExampleValue();
    PlainExampleText();
  }

  lemma PlainExampleValue()
    ensures StripQuotes("qux") == "qux"
  {
    StripQuotesUnquoted("qux");
  }

  lemma PlainExampleText()
    ensures "BAZ" + "=" + "qux" == "BAZ=qux"
  {
  }
}
