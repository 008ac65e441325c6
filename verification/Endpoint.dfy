/** What the server and the client have in common: their configuration and libraries, and the
    data channel they build from an established session (src/server.py, src/client.py). */
module Endpoint {
  import opened Bytes
  import opened Control
  import opened Handshake
  import Data

  const REPLAY_WINDOW: nat := 64

  /** Configuration and libraries; isText tells the bytes that decode as UTF-8. */
  datatype Env = Env(
    crypto: Crypto, credentials: Option<Credentials>, keepaliveTimeout: real,
    aead: Data.Aead, codec: Data.Codec, compLzo: bool, isText: bytes -> bool)

  /** A data channel: what it was built with, its packet counter, and its receiving half. */
  datatype DataState = DataState(channel: Data.Channel, counter: nat, rx: Data.Rx)

  function ChannelOf(args: ChannelArgs, aead: Data.Aead, codec: Data.Codec, compLzo: bool): Data.Channel {
    Data.NewChannel(args.ours, args.peers, args.key, aead, codec, compLzo)
  }

  /** The data channel built for an established session. */
  function NewData(env: Env, s: SessionValue): DataState {
    DataState(ChannelOf(ArgsOf(s), env.aead, env.codec, env.compLzo), 0, Data.NewRx(REPLAY_WINDOW))
  }

  /** cleanup_fragments on a channel, if there is one. */
  function ExpireData(data: Option<DataState>, now: real): Option<DataState> {
    match data
    case None => None
    case Some(d) => Some(d.(rx := d.rx.(groups := Data.Cleanup(d.rx.groups, now))))
  }
}
