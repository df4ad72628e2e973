/** The remote host and the clock: an arbitrary answer for every question, and a log of both. */
module ReleaseRemote {
  import opened JsonValues
  import opened ReleaseContracts

  class Remote {
    const jsonReplies: nat -> Reply<Json>
    const byteReplies: nat -> Reply<seq<Byte>>
    const readings: nat -> Reading
    var step: nat
    ghost var log: seq<Event>

    constructor (jsonReplies: nat -> Reply<Json>, byteReplies: nat -> Reply<seq<Byte>>, readings: nat -> Reading)
      ensures log == []
    {
      this.jsonReplies := jsonReplies;
      this.byteReplies := byteReplies;
      this.readings := readings;
      step := 0;
      log := [];
    }

    method RequestJson(request: Request) returns (reply: Reply<Json>)
      modifies this
      ensures log == old(log) + [JsonAsked(request, reply)]
    {
      reply := jsonReplies(step);
      step := step + 1;
      log := log + [JsonAsked(request, reply)];
    }

    method RequestBytes(url: string) returns (reply: Reply<seq<Byte>>)
      modifies this
      ensures log == old(log) + [BytesAsked(url, reply)]
    {
      reply := byteReplies(step);
      step := step + 1;
      log := log + [BytesAsked(url, reply)];
    }

    method Now() returns (reading: Reading)
      modifies this
      ensures log == old(log) + [ClockRead(reading)]
    {
      reading := readings(step);
      step := step + 1;
      log := log + [ClockRead(reading)];
    }

    method Sleep(ms: int)
      modifies this
      ensures log == old(log) + [Slept(ms)]
    {
      step := step + 1;
      log := log + [Slept(ms)];
    }

    /** Marks in the log where a tag peel ended and with what result; asks nothing. */
    ghost method NotePeel(result: PeelResult)
      modifies this`log
      ensures log == old(log) + [TagPeeled(result)]
    {
      log := log + [TagPeeled(result)];
    }
  }
}
