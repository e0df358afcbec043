/** Worked examples of the desktop conversion, checked against the general definitions. */
module ProcessorExamples {
  import opened Wrappers
  import opened JsText
  import opened Cells
  import opened Processor
  import Seqs

  /** `Mouse/Keyboard` is two items. */
  lemma ExampleItems()
    ensures Items("Mouse/Keyboard") == ["Mouse", "Keyboard"]
  {
    assert "Mouse/Keyboard" == "Mouse" + ['/'] + "Keyboard";
    ItemsOfTwo("Mouse", "Keyboard");
  }

  /** `INV-001` seeds prefix `INV-`, counter 1 and width 3. */
  lemma ExampleSeed()
    ensures InitState(None, SText("INV-001")) == Some(IdState("INV-", 1, 3))
  {
    assert "INV-001" == "INV-" + "001";
    MatchPrefixDigits("INV-", "001");
    assert ParseDigits("001") == 1 by {
      assert "001"[..2] == "00" && "00"[..1] == "0" && "0"[..0] == "";
    }
  }

  lemma ExampleFormat()
    ensures FormatId(IdState("INV-", 1, 3)) == "INV-001"
    ensures FormatId(IdState("INV-", 2, 3)) == "INV-002"
    ensures FormatId(IdState("INV-", 3, 3)) == "INV-003"
  {
    assert NatToString(1) == "1" && NatToString(2) == "2" && NatToString(3) == "3";
    assert Repeat('0', 2) == "00";
  }

  /**
   * Rows `INV-001 | Mouse/Keyboard` and `INV-002 | Webcam` give three records numbered
   * INV-001, INV-002, INV-003: the second row's own identifier is not used.
   */
  lemma ExampleIds(r1: RowView, r2: RowView)
    requires r1.rawId == SText("INV-001") && |r1.items| == 2
    requires r2.rawId == SText("INV-002") && |r2.items| == 1
    ensures var b := Batch(None, [r1, r2]);
      |b| == 3 && b[0].id == SText("INV-001") && b[1].id == SText("INV-002") && b[2].id == SText("INV-003")
  {
    var vs := [r1, r2];
    var s0 := IdState("INV-", 1, 3);
    ExampleSeed();
    SplitAtFirstSeed(vs, 0);
    assert vs[..0] == [] && vs[0..] == vs;
    assert Seqs.Flatten(Seqs.Map(vs[..0], PassThrough)) == [];
    IdsConsecutive(s0, vs);
    BatchLength(Some(s0), vs);
    assert vs[..1] == [r1];
    assert TotalItems(vs) == 3 by {
      assert [r1][..0] == [];
    }
    ExampleFormat();
  }
}
