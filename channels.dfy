/**
 * The channel-subset step of `preprocess_eeg`: keep the data columns
 * whose channel name is on a fixed list of 14 scalp channels, and rewrite
 * the name list to match. The data is samples x channels.
 */
module Channels {
  import opened Wrappers
  import opened Matrices
  import Selection

  const AllowedChannels: seq<string> := [
    "F3", "Fz", "F4",
    "FC5", "FC1", "FC2", "FC6",
    "C3", "Cz", "C4",
    "CP5", "CP1", "CP2", "CP6"
  ]

  predicate Allowed(name: string) {
    name in AllowedChannels
  }

  function AllowedTest(): string -> bool {
    name => Allowed(name)
  }

  /** The EEG part of the recording: samples x channels data and one name per channel. */
  datatype Eeg<T> = Eeg(data: Matrix<T>, names: seq<string>)

  /** numpy's IndexError: a kept name's position is not a column of the data. */
  datatype SelectError = IndexError

  /**
   * `[i for i, name in enumerate(channel_names) if name in allowed_channels]`:
   * in increasing order, exactly the positions whose name is allowed.
   */
  function KeptChannels(names: seq<string>): (idx: seq<nat>)
    ensures Selection.StrictlyIncreasing(idx)
    ensures forall j :: 0 <= j < |idx| ==> idx[j] < |names|
    ensures forall i :: 0 <= i < |names| ==> (i in idx <==> Allowed(names[i]))
  {
    var idx := Selection.KeptIndices(names, AllowedTest());
    forall i | 0 <= i < |names| && i in idx ensures Allowed(names[i]) {
      var j :| 0 <= j < |idx| && idx[j] == i;
    }
    idx
  }

  /**
   * `eeg_data[:, indices]` and `[channel_names[i] for i in indices]`: the
   * kept columns and their names, or the IndexError numpy raises when a
   * kept position is past the last data column.
   */
  function SelectChannels<T>(eeg: Eeg<T>): (r: Result<Eeg<T>, SelectError>)
    ensures r.Ok? <==> forall i :: 0 <= i < |eeg.names| && Allowed(eeg.names[i]) ==> i < eeg.data.width
    ensures r.Ok? ==> |r.value.data.rows| == |eeg.data.rows|
    ensures r.Ok? ==> r.value.data.width == |r.value.names| == |KeptChannels(eeg.names)|
    ensures r.Ok? ==> forall j :: 0 <= j < |r.value.names| ==> Allowed(r.value.names[j])
  {
    var idx := KeptChannels(eeg.names);
    if forall j :: 0 <= j < |idx| ==> idx[j] < eeg.data.width then
      var names := Selection.Gather(eeg.names, idx);
      assert forall j :: 0 <= j < |names| ==> names[j] == eeg.names[idx[j]];
      Ok(Eeg(PickColumns(eeg.data, idx), names))
    else
      Err(IndexError)
  }

  /**
   * Names and data stay aligned: column `j` of the result is the source
   * column of the `j`-th kept position, and its name is that column's name,
   * the kept positions following the input order.
   */
  lemma SelectionAligned<T>(eeg: Eeg<T>)
    requires SelectChannels(eeg).Ok?
    ensures var out := SelectChannels(eeg).value;
            var idx := KeptChannels(eeg.names);
            forall j :: 0 <= j < |idx| ==>
              idx[j] < eeg.data.width && out.names[j] == eeg.names[idx[j]] && Column(out.data, j) == Column(eeg.data, idx[j])
  {
  }

  /** Every allowed source channel, duplicates included, is in the result under its own name and with its own column. */
  lemma AllowedChannelsKept<T>(eeg: Eeg<T>, out: Eeg<T>)
    requires SelectChannels(eeg) == Ok(out)
    ensures forall i :: 0 <= i < |eeg.names| && Allowed(eeg.names[i]) ==>
              exists j :: 0 <= j < |out.names| && out.names[j] == eeg.names[i] && Column(out.data, j) == Column(eeg.data, i)
  {
    var idx := KeptChannels(eeg.names);
    SelectionAligned(eeg);
    forall i | 0 <= i < |eeg.names| && Allowed(eeg.names[i])
      ensures exists j :: 0 <= j < |out.names| && out.names[j] == eeg.names[i] && Column(out.data, j) == Column(eeg.data, i)
    {
      assert i in idx;
      var j :| 0 <= j < |idx| && idx[j] == i;
      assert out.names[j] == eeg.names[i] && Column(out.data, j) == Column(eeg.data, i);
    }
  }

  /** Result column `j` is some allowed source column, under that column's name. */
  ghost predicate DrawnFrom<T>(eeg: Eeg<T>, out: Eeg<T>, j: nat)
    requires j < |out.names| && j < out.data.width
  {
    exists i :: 0 <= i < |eeg.names| && i < eeg.data.width && Allowed(eeg.names[i])
                && out.names[j] == eeg.names[i] && Column(out.data, j) == Column(eeg.data, i)
  }

  /** Every result column is an allowed source channel, with that channel's name. */
  lemma OnlyAllowedChannels<T>(eeg: Eeg<T>, out: Eeg<T>)
    requires SelectChannels(eeg) == Ok(out)
    ensures forall j :: 0 <= j < |out.names| ==> DrawnFrom(eeg, out, j)
  {
    var idx := KeptChannels(eeg.names);
    SelectionAligned(eeg);
    forall j | 0 <= j < |out.names|
      ensures DrawnFrom(eeg, out, j)
    {
      var i := idx[j];
      assert i in idx;
      assert out.names[j] == eeg.names[i] && Column(out.data, j) == Column(eeg.data, i);
    }
  }

  /** Selecting again changes nothing: every remaining channel is allowed and has its column. */
  lemma {:induction false} SelectionIdempotent<T>(eeg: Eeg<T>, out: Eeg<T>)
    requires SelectChannels(eeg) == Ok(out)
    ensures SelectChannels(out) == Ok(out)
  {
    var n := |out.names|;
    var all: seq<nat> := seq(n, j => j);
    assert Selection.SelectsExactly(out.names, AllowedTest(), all) by {
      forall i | 0 <= i < n ensures i in all {
        assert all[i] == i;
      }
    }
    Selection.SelectionIsUnique(out.names, AllowedTest(), all);
    assert KeptChannels(out.names) == all;
    PickAllColumns(out.data, all);
    Selection.GatherAll(out.names, all);
  }

  /**
   * An example: names Fp1, Cz, F3, Cz keep positions 1, 2 and 3; the list
   * order and the duplicate Cz come from the input, not from the allowed list.
   */
  lemma DuplicatesAndOrderKept()
    ensures KeptChannels(["Fp1", "Cz", "F3", "Cz"]) == [1, 2, 3]
  {
    var names := ["Fp1", "Cz", "F3", "Cz"];
    ExampleNamesTested(names);
    var idx := KeptChannels(names);
    var expected := [1, 2, 3];
    assert Selection.SelectsExactly(names, AllowedTest(), expected) by {
      assert forall i :: 0 <= i < |names| && AllowedTest()(names[i]) ==> i in expected;
    }
    Selection.SelectionIsUnique(names, AllowedTest(), expected);
  }

  /** The example's first name is not a scalp channel of the list; the others are. */
  lemma ExampleNamesTested(names: seq<string>)
    requires names == ["Fp1", "Cz", "F3", "Cz"]
    ensures !AllowedTest()(names[0]) && AllowedTest()(names[1]) && AllowedTest()(names[2]) && AllowedTest()(names[3])
  {
    assert forall k :: 0 <= k < |AllowedChannels| ==> AllowedChannels[k] != "Fp1";
    assert AllowedChannels[8] == "Cz" && AllowedChannels[0] == "F3";
  }
}
