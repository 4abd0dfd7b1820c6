/** The change-set digest: its input checks and the text that is hashed. */
module ChangeSet {
  import opened Seqs
  import opened Text

  const ALGORITHM := "assurectl.git-change-set/v0"

  predicate RepositoryOk(uri: string) {
    uri != "" && NoSurroundingSpace(uri) && '\0' !in uri && '\r' !in uri && '\n' !in uri
  }

  predicate Accepted(repository: string, base: string, head: string) {
    RepositoryOk(repository) && ObjectId(base) && ObjectId(head)
  }

  function Preimage(repository: string, base: string, head: string): string {
    ALGORITHM + "\n" + repository + "\n" + base + "\n" + head + "\n"
  }

  method ValidateObjectId(value: string) returns (ok: bool)
    ensures ok <==> ObjectId(value)
  {
    if |value| != 40 && |value| != 64 {
      return false;
    }
    for i := 0 to |value|
      invariant AllLowerHex(value[..i])
    {
      assert value[i] in value;
      assert value[..i + 1] == value[..i] + [value[i]];
      if (value[i] < '0' || value[i] > '9') && (value[i] < 'a' || value[i] > 'f') {
        return false;
      }
    }
    assert value[..|value|] == value;
    ok := true;
  }

  /** The text handed to the hash, or a refusal. */
  method ChangeSetPreimage(repository: string, base: string, head: string) returns (r: Option<string>)
    ensures r == if Accepted(repository, base, head) then Some(Preimage(repository, base, head)) else None
  {
    if repository == "" || !NoSurroundingSpace(repository)
       || '\0' in repository || '\r' in repository || '\n' in repository {
      return None;
    }
    var baseOk := ValidateObjectId(base);
    var headOk := ValidateObjectId(head);
    if !baseOk || !headOk {
      return None;
    }
    r := Some(ALGORITHM + "\n" + repository + "\n" + base + "\n" + head + "\n");
  }

  /** Distinct accepted triples are hashed as distinct texts, whatever the lengths of their object ids. */
  lemma PreimageInjective(repository: string, base: string, head: string,
                          repository': string, base': string, head': string)
    requires Accepted(repository, base, head) && Accepted(repository', base', head')
    requires Preimage(repository, base, head) == Preimage(repository', base', head')
    ensures (repository, base, head) == (repository', base', head')
  {
    var prefix := ALGORITHM + "\n";
    var tail, tail' := base + "\n" + (head + "\n"), base' + "\n" + (head' + "\n");
    assert Preimage(repository, base, head) == prefix + (repository + "\n" + tail);
    assert Preimage(repository', base', head') == prefix + (repository' + "\n" + tail');
    SameTail(prefix, repository + "\n" + tail, repository' + "\n" + tail');
    FirstSeparator(repository, tail, repository', tail', '\n');
    assert !IsLowerHex('\n');
    FirstSeparator(base, head + "\n", base', head' + "\n", '\n');
    assert head + "\n" == head + "\n" + "" && head' + "\n" == head' + "\n" + "";
    FirstSeparator(head, "", head', "", '\n');
  }

  /** What is never hashed: no repository, one that could break the lines or be read in two ways, or a bad object id. */
  lemma TripleRefused(repository: string, base: string, head: string)
    ensures !Accepted(repository, base, head) <==> (
      || repository == "" || IsSpace(repository[0]) || IsSpace(repository[|repository| - 1])
      || (exists c :: c in repository && (c == '\0' || c == '\r' || c == '\n'))
      || !ObjectId(base) || !ObjectId(head))
  {
  }

  lemma FirstLine(line: string, rest: string)
    requires '\n' !in line
    ensures Split(line + "\n" + rest, '\n') == [line] + Split(rest, '\n')
  {
    var s := line + "\n" + rest;
    IndexOfFirst(line, '\n', rest);
    assert s[..|line|] == line && s[|line| + 1..] == rest;
  }

  lemma TwoLines(a: string, b: string, rest: string)
    requires '\n' !in a && '\n' !in b
    ensures Split(a + "\n" + (b + "\n" + rest), '\n') == [a, b] + Split(rest, '\n')
  {
    FirstLine(b, rest);
    FirstLine(a, b + "\n" + rest);
  }

  lemma FourLines(a: string, b: string, c: string, d: string)
    requires '\n' !in a && '\n' !in b && '\n' !in c && '\n' !in d
    ensures Split(a + "\n" + (b + "\n" + (c + "\n" + (d + "\n" + ""))), '\n') == [a, b, c, d, ""]
  {
    TwoLines(c, d, "");
    TwoLines(a, b, c + "\n" + (d + "\n" + ""));
    assert Split("", '\n') == [""];
  }

  lemma Grouped(a: string, b: string, c: string, d: string)
    ensures a + "\n" + b + "\n" + c + "\n" + d + "\n" == a + "\n" + (b + "\n" + (c + "\n" + (d + "\n" + "")))
  {
  }

  /** The hashed text is four lines: the algorithm, the repository, the base and the head. */
  lemma PreimageLines(repository: string, base: string, head: string)
    requires Accepted(repository, base, head)
    ensures Split(Preimage(repository, base, head), '\n')
         == ["assurectl.git-change-set/v0", repository, base, head, ""]
  {
    assert !IsLowerHex('\n');
    FourLines(ALGORITHM, repository, base, head);
    Grouped(ALGORITHM, repository, base, head);
  }

  lemma SameTail(p: string, a: string, b: string)
    requires p + a == p + b
    ensures a == b
  {
    assert (p + a)[|p|..] == a && (p + b)[|p|..] == b;
  }
}
