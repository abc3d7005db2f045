/** Acceptance of an environment file is a property of its lines, whatever their order. */
module EnvLines {
  import opened Text
  import opened EnvFile
  import Sequences
  import opened EnvAgreement
  import opened EnvLimits

  predicate FreshKeys(entries: seq<Entry>, values: Values) {
    forall i :: 0 <= i < |entries| && entries[i].Set? ==> entries[i].key !in values
  }

  lemma {:induction false} CollectAccepts(entries: seq<Entry>, number: nat, values: Values)
    requires NoneBad(entries) && KeysDiffer(entries) && FreshKeys(entries, values)
    ensures Collect(entries, number, values).Ok?
  {
    if entries != [] {
      assert forall i :: 0 < i < |entries| ==> entries[i] == entries[1..][i - 1];
      match entries[0]
      case Skip => CollectAccepts(entries[1..], number + 1, values);
      case Set(k, v) => CollectAccepts(entries[1..], number + 1, values[k := v]);
    }
  }

  lemma {:induction false} CollectHolds(entries: seq<Entry>, number: nat, values: Values, k: string, v: string)
    requires Collect(entries, number, values).Ok?
    ensures var m := Collect(entries, number, values).value;
            (k in m && m[k] == v) <==> ((k in values && values[k] == v) || Set(k, v) in entries)
  {
    if entries != [] {
      CollectDiffers(entries, number, values);
      match entries[0]
      case Skip => CollectHolds(entries[1..], number + 1, values, k, v);
      case Set(k', v') => CollectHolds(entries[1..], number + 1, values[k' := v'], k, v);
    }
  }

  /** A file is accepted exactly when each line is blank, a comment or well formed, and no key repeats. */
  lemma AcceptsExactly(text: string, home: Option<string>)
    ensures var entries := Entries(Lines(text), home);
            ParseSpec(text, home).Ok? <==> NoneBad(entries) && KeysDiffer(entries)
  {
    hide Entries, Lines;
    var entries := Entries(Lines(text), home);
    if ParseSpec(text, home).Ok? {
      CollectAssigns(entries, 1, map[], map[]);
      CollectDiffers(entries, 1, map[]);
    }
    if NoneBad(entries) && KeysDiffer(entries) {
      CollectAccepts(entries, 1, map[]);
    }
  }

  /** An accepted file's values are the ones its lines set. */
  lemma HoldsExactly(text: string, home: Option<string>, k: string, v: string)
    requires ParseSpec(text, home).Ok?
    ensures var m := ParseSpec(text, home).value;
            (k in m && m[k] == v) <==> Set(k, v) in Entries(Lines(text), home)
  {
    hide Entries, Lines;
    CollectHolds(Entries(Lines(text), home), 1, map[], k, v);
  }

  lemma SwapFirst(x: Entry, y: Entry, t: seq<Entry>, number: nat, values: Values)
    requires Collect([x, y] + t, number, values).Ok?
    ensures Collect([y, x] + t, number, values) == Collect([x, y] + t, number, values)
  {
    assert ([x, y] + t)[1..] == [y] + t && ([y] + t)[1..] == t;
    assert ([y, x] + t)[1..] == [x] + t && ([x] + t)[1..] == t;
    if x.Set? && y.Set? {
      assert values[x.key := x.value][y.key := y.value] == values[y.key := y.value][x.key := x.value];
    }
  }

  lemma {:induction false} MoveBack(x: Entry, a: seq<Entry>, b: seq<Entry>, number: nat, values: Values)
    requires Collect([x] + a + b, number, values).Ok?
    ensures Collect(a + [x] + b, number, values) == Collect([x] + a + b, number, values)
  {
    if a == [] {
      assert [x] + a + b == a + [x] + b;
    } else {
      var y, a' := a[0], a[1..];
      assert [x] + a + b == [x, y] + (a' + b);
      SwapFirst(x, y, a' + b, number, values);
      assert [y, x] + (a' + b) == [y] + ([x] + a' + b);
      assert a + [x] + b == [y] + (a' + [x] + b);
      assert ([y] + ([x] + a' + b))[1..] == [x] + a' + b;
      assert ([y] + (a' + [x] + b))[1..] == a' + [x] + b;
      match y
      case Skip => MoveBack(x, a', b, number + 1, values);
      case Set(k, v) => MoveBack(x, a', b, number + 1, values[k := v]);
    }
  }

  lemma EntriesAppend(a: seq<string>, b: seq<string>, home: Option<string>)
    ensures Entries(a + b, home) == Entries(a, home) + Entries(b, home)
  {
    hide ParseLine, Trim;
  }

  lemma {:induction false} Permuted(lines: seq<string>, lines': seq<string>, number: nat, values: Values,
                                    home: Option<string>)
    requires multiset(lines) == multiset(lines')
    requires Collect(Entries(lines, home), number, values).Ok?
    ensures Collect(Entries(lines', home), number, values) == Collect(Entries(lines, home), number, values)
  {
    hide ParseLine, Trim;
    if lines == [] {
      assert |multiset(lines')| == 0;
      assert lines' == [];
    } else {
      var j := Sequences.RemoveFirst(lines, lines');
      var a, b := lines'[..j], lines'[j + 1..];
      assert lines == [lines[0]] + lines[1..];
      var x := ParseLine(Trim(lines[0]), home);
      assert Entries([lines[0]], home) == [x];
      EntriesAppend([lines[0]], lines[1..], home);
      EntriesAppend(a + [lines[0]], b, home);
      EntriesAppend(a, [lines[0]], home);
      EntriesAppend(a, b, home);
      var ea, eb := Entries(a, home), Entries(b, home);
      assert ([x] + Entries(lines[1..], home))[1..] == Entries(lines[1..], home);
      assert ([x] + (ea + eb))[1..] == ea + eb;
      assert [x] + (ea + eb) == [x] + ea + eb;
      match x {
        case Skip => Permuted(lines[1..], a + b, number + 1, values, home);
        case Set(k, v) => Permuted(lines[1..], a + b, number + 1, values[k := v], home);
      }
      MoveBack(x, ea, eb, number, values);
    }
  }

  /** Reordering an accepted file's lines changes nothing. */
  lemma OrderIrrelevant(text: string, text': string, home: Option<string>)
    requires multiset(Lines(text)) == multiset(Lines(text')) && ParseSpec(text, home).Ok?
    ensures ParseSpec(text', home) == ParseSpec(text, home)
  {
    hide Entries, Lines;
    Permuted(Lines(text), Lines(text'), 1, map[], home);
  }
}
