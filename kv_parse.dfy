/**
 * `_parse_kv_lines`: reading the `Key=Value` lines printed by `systemctl show`.
 */
module KvParse {
  import opened Results
  import opened Text

  /**
   * What one line contributes: nothing when it has no `=`, otherwise the text
   * before the first `=` and the text after it, both stripped.
   */
  function LineEntry(line: string): (e: Option<(string, string)>)
    ensures e.None? <==> '=' !in line
  {
    var i := IndexOf(line, '=');
    if i == |line| then None else Some((Strip(line[..i]), Strip(line[i + 1..])))
  }

  /** `line` assigns `key`. */
  predicate Defines(line: string, key: string)
  {
    LineEntry(line).Some? && LineEntry(line).value.0 == key
  }

  /** The dictionary `m` after writing the pair `line` contributes, if any. */
  function Assign(m: map<string, string>, line: string): map<string, string>
  {
    var e := LineEntry(line);
    if e.Some? then m[e.value.0 := e.value.1] else m
  }

  /** The dictionary built from `lines`, one line at a time, later lines overwriting earlier ones. */
  function KvOf(lines: seq<string>): map<string, string>
  {
    if lines == [] then map[] else Assign(KvOf(lines[..|lines| - 1]), lines[|lines| - 1])
  }

  /** The value given to `key` by the last line of `lines` that assigns it, if any. */
  function LastValue(lines: seq<string>, key: string): Option<string>
  {
    if lines == [] then None
    else if Defines(lines[|lines| - 1], key) then Some(LineEntry(lines[|lines| - 1]).value.1)
    else LastValue(lines[..|lines| - 1], key)
  }

  /**
   * `_parse_kv_lines(text)`: split into lines, skip those without `=`, and
   * write each remaining pair into the dictionary in order.
   */
  method ParseKvLines(text: string) returns (data: map<string, string>)
    ensures data == KvOf(SplitLines(text))
  {
    var lines := SplitLines(text);
    data := map[];
    for i := 0 to |lines|
      invariant data == KvOf(lines[..i])
    {
      var line := lines[i];
      assert lines[..i + 1] == lines[..i] + [line];
      KvOfAppend(lines[..i], line);
      var entry := LineEntry(line);
      if entry.None? {
        continue;
      }
      var (k, v) := entry.value;
      data := data[k := v];
    }
    assert lines[..|lines|] == lines;
  }

  /** A line splits at its first `=`: the key holds no `=`, the value may hold more. */
  lemma LineEntrySplitsAtFirstEquals(before: string, after: string)
    requires '=' !in before
    ensures LineEntry(before + "=" + after) == Some((Strip(before), Strip(after)))
  {
    var line := before + "=" + after;
    var i := IndexOf(line, '=');
    assert line[|before|] == '=';
    assert line[..|before|] == before;
    assert i == |before|;
    assert line[i + 1..] == after;
  }

  /** A line without `=` leaves the dictionary as it was; any other line sets its key, overwriting. */
  lemma KvOfAppend(lines: seq<string>, line: string)
    ensures '=' !in line ==> KvOf(lines + [line]) == KvOf(lines)
    ensures '=' in line ==>
      var e := LineEntry(line).value;
      KvOf(lines + [line]) == KvOf(lines)[e.0 := e.1]
  {
    var all := lines + [line];
    assert all[..|all| - 1] == lines;
    assert KvOf(all) == Assign(KvOf(lines), line);
  }

  /** The dictionary holds, for every key, the value of the last line that assigns it. */
  lemma {:induction false} KvOfIsLastValue(lines: seq<string>, key: string)
    ensures key in KvOf(lines) <==> LastValue(lines, key).Some?
    ensures key in KvOf(lines) ==> KvOf(lines)[key] == LastValue(lines, key).value
  {
    if lines != [] {
      KvOfIsLastValue(lines[..|lines| - 1], key);
    }
  }

  /** Writing a line's pair adds exactly the key the line assigns. */
  lemma AssignKeys(m: map<string, string>, line: string, key: string)
    ensures key in Assign(m, line) <==> key in m || Defines(line, key)
  {
  }

  /** Some line of `lines` assigns `key`. */
  predicate SomeLineDefines(lines: seq<string>, key: string)
  {
    exists i {:trigger Defines(lines[i], key)} :: 0 <= i < |lines| && Defines(lines[i], key)
  }

  /** Some line satisfies `p` exactly when the last one does or an earlier one does. */
  lemma SomeLineSplit(lines: seq<string>, init: seq<string>, p: string -> bool)
    requires lines != [] && init == lines[..|lines| - 1]
    ensures (exists i :: 0 <= i < |lines| && p(lines[i]))
      <==> (exists i :: 0 <= i < |init| && p(init[i])) || p(lines[|lines| - 1])
  {
    if exists i :: 0 <= i < |lines| && p(lines[i]) {
      var i :| 0 <= i < |lines| && p(lines[i]);
      if i < |init| {
        assert init[i] == lines[i];
      }
    }
    if exists i :: 0 <= i < |init| && p(init[i]) {
      var i :| 0 <= i < |init| && p(init[i]);
      assert lines[i] == init[i];
    }
  }

  /** Every key of the dictionary comes from some line, and every line with `=` leaves its key. */
  lemma {:induction false} KvOfKeys(lines: seq<string>, key: string)
    ensures key in KvOf(lines) <==> SomeLineDefines(lines, key)
  {
    if lines != [] {
      var init := lines[..|lines| - 1];
      var last := lines[|lines| - 1];
      KvOfKeys(init, key);
      AssignKeys(KvOf(init), last, key);
      SomeLineSplit(lines, init, line => Defines(line, key));
    }
  }

  /** A key assigned at line `i` and never again keeps line `i`'s value. */
  lemma {:induction false} KvOfLastWins(lines: seq<string>, key: string, i: nat)
    requires i < |lines| && Defines(lines[i], key)
    requires forall j :: i < j < |lines| ==> !Defines(lines[j], key)
    ensures key in KvOf(lines) && KvOf(lines)[key] == LineEntry(lines[i]).value.1
  {
    if i < |lines| - 1 {
      var init := lines[..|lines| - 1];
      assert init[i] == lines[i];
      forall j | i < j < |init| ensures !Defines(init[j], key) {
        assert init[j] == lines[j];
      }
      KvOfLastWins(init, key, i);
    }
  }
}
