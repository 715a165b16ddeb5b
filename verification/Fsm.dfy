/** What the two state machines have in common. */
module Fsm {
  import opened Bytes
  import opened Packets

  datatype State = Idle | Request | Response | Initiate | Block | Terminate

  /** The negotiable fields that both parties keep in their configuration headers. */
  datatype Config = Config(id: bv32, blocks: u8, maxLen: u8, timeout: u8)

  const NO_CONFIG := Config(0, 0, 0, 0)

  function ConfigOf(h: TxHeader): Config {
    Config(h.id, h.blocks, h.maxLen, h.timeout)
  }

  /** A fresh header carrying a type and a configuration. */
  function HeaderFor(t: MsgType, c: Config): TxHeader {
    FRESH_TX_HEADER.(msgType := t, id := c.id, blocks := c.blocks, maxLen := c.maxLen,
                   timeout := c.timeout)
  }

  /** Smallest block count and packet length, largest timeout, the client's identifier. */
  function Negotiate(client: Config, server: Config): Config {
    Config(client.id,
           if client.blocks < server.blocks then client.blocks else server.blocks,
           if client.maxLen < server.maxLen then client.maxLen else server.maxLen,
           if client.timeout > server.timeout then client.timeout else server.timeout)
  }
}
