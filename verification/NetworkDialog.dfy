/** The socket handler of the network dialog (common-plugin/networkdialog.cpp). */
module NetworkDialogs {
  import opened Sequences
  import opened Text
  import opened Frames

  class NetworkDialog {
    var lastData: string
    ghost var chunks: seq<string>
    ghost var dispatched: seq<Command>

    ghost predicate Valid()
      reads this
    {
      Reader(lastData, dispatched) == ReadAll(chunks)
    }

    constructor ()
      ensures Valid() && chunks == []
    {
      lastData, chunks, dispatched := "", [], [];
    }

    /** The loop over the pieces of the text. */
    static method Dispatch(dataArray: seq<string>) returns (commands: seq<Command>)
      ensures commands == ParseAll(dataArray)
    {
      commands := [];
      for i := 0 to |dataArray|
        invariant commands == ParseAll(dataArray[..i])
      {
        assert dataArray[..i + 1][..i] == dataArray[..i];
        var keyIndex := FirstColon(dataArray[i], 0);
        if keyIndex < |dataArray[i]| {
          var key := dataArray[i][..keyIndex];
          var value := dataArray[i][keyIndex + 1..];
          if KnownKey(key) {
            commands := commands + [Command(key, value)];
          }
        }
      }
      assert dataArray[..|dataArray|] == dataArray;
    }

    /** One chunk from the socket; the commands it makes the dialog run, in order. */
    method ReadyReadHandler(data: string) returns (commands: seq<Command>)
      requires Valid()
      modifies this
      ensures Valid() && chunks == old(chunks) + [data]
      ensures dispatched == old(dispatched) + commands
      ensures lastData == Tail(Flatten(chunks))
    {
      var allData := lastData + data;
      var dataArray := Split(allData, '\n');
      LastPiece(allData);
      lastData := dataArray[|dataArray| - 1];
      commands := Dispatch(dataArray);
      dispatched := dispatched + commands;
      NextChunk(chunks, data);
      chunks := chunks + [data];
    }
  }
}
