// The stored records (src/types/state.rs): the objects with their in-place updates, and the
// value of the whole storage that specifications speak about.

module State {
  import opened Prelude
  import opened Outcomes
  import opened Ibc
  import opened Metadata

  datatype IcaInfo = IcaInfo(icaAddress: string, channelId: string, encoding: TxEncoding)

  datatype ChannelStatus = Uninitialized | Init | TryOpen | Open | Closed

  /** The value of a stored channel. */
  datatype ChannelRecord = ChannelRecord(channel: IbcChannel, status: ChannelStatus)

  /** The value of the callback counter. */
  datatype Counts = Counts(success: uint32, error: uint32, timeout: uint32)

  /** The value of the three storage items; the channel item may be absent. */
  datatype Storage = Storage(
    admin: string,
    icaInfo: Option<IcaInfo>,
    channel: Option<ChannelRecord>,
    counts: Counts)

  class ContractState {
    var admin: string
    var icaInfo: Option<IcaInfo>

    constructor (admin: string)
      ensures this.admin == admin && icaInfo == None
    {
      this.admin := admin;
      icaInfo := None;
    }

    method VerifyAdmin(sender: string) returns (r: Outcome<()>)
      ensures r == if sender == admin then Ok(()) else Err(Unauthorized)
    {
      if admin == sender {
        r := Ok(());
      } else {
        r := Err(Unauthorized);
      }
    }

    method GetIcaInfo() returns (r: Outcome<IcaInfo>)
      ensures r.Ok? <==> icaInfo.Some?
      ensures r.Ok? ==> icaInfo == Some(r.value)
      ensures !r.Ok? ==> r == Err(IcaInfoNotSet)
    {
      match icaInfo
      case Some(info) => r := Ok(info);
      case None => r := Err(IcaInfoNotSet);
    }

    method SetIcaInfo(icaAddress: string, channelId: string, encoding: TxEncoding)
      modifies this
      ensures admin == old(admin) && icaInfo == Some(IcaInfo(icaAddress, channelId, encoding))
    {
      icaInfo := Some(IcaInfo(icaAddress, channelId, encoding));
    }

    method DeleteIcaInfo()
      modifies this
      ensures admin == old(admin) && icaInfo == None
    {
      icaInfo := None;
    }
  }

  class ChannelState {
    var channel: IbcChannel
    var status: ChannelStatus

    constructor NewOpenChannel(channel: IbcChannel)
      ensures this.channel == channel && status == Open
    {
      this.channel := channel;
      status := Open;
    }

    predicate IsOpen()
      reads this
    {
      status == Open
    }

    method Close()
      modifies this
      ensures channel == old(channel) && status == Closed && !IsOpen()
    {
      status := Closed;
    }

    ghost function Value(): ChannelRecord
      reads this
    {
      ChannelRecord(channel, status)
    }
  }

  /** Three checked 32-bit counters: an increment past the maximum panics and changes nothing. */
  class CallbackCounter {
    var success: uint32
    var error: uint32
    var timeout: uint32

    constructor Default()
      ensures Value() == Counts(0, 0, 0)
    {
      success, error, timeout := 0, 0, 0;
    }

    ghost function Value(): Counts
      reads this
    {
      Counts(success, error, timeout)
    }

    method Success() returns (r: Outcome<()>)
      modifies this
      ensures r == if old(success) + 1 < TWO_TO_THE_32 then Ok(()) else Abort
      ensures r.Ok? ==> Value() == old(Value()).(success := old(success) + 1)
      ensures !r.Ok? ==> Value() == old(Value())
    {
      if success + 1 >= TWO_TO_THE_32 {
        return Abort;
      }
      success := success + 1;
      return Ok(());
    }

    method Error() returns (r: Outcome<()>)
      modifies this
      ensures r == if old(error) + 1 < TWO_TO_THE_32 then Ok(()) else Abort
      ensures r.Ok? ==> Value() == old(Value()).(error := old(error) + 1)
      ensures !r.Ok? ==> Value() == old(Value())
    {
      if error + 1 >= TWO_TO_THE_32 {
        return Abort;
      }
      error := error + 1;
      return Ok(());
    }

    method Timeout() returns (r: Outcome<()>)
      modifies this
      ensures r == if old(timeout) + 1 < TWO_TO_THE_32 then Ok(()) else Abort
      ensures r.Ok? ==> Value() == old(Value()).(timeout := old(timeout) + 1)
      ensures !r.Ok? ==> Value() == old(Value())
    {
      if timeout + 1 >= TWO_TO_THE_32 {
        return Abort;
      }
      timeout := timeout + 1;
      return Ok(());
    }
  }
}
