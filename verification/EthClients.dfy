/** A full-node and an archive-node connection, and which of them a call goes to. */
module EthClients {
  import opened Wrappers
  import opened EthEncoding

  type ConnId = nat

  datatype EthClient = EthClient(client: ConnId, archive: ConnId) {
    function ClientFor(block: BlockNumber): ConnId {
      if block.None? then client else archive
    }
  }

  /** EthCfg.Dial: each endpoint stands in for the other when only one of them can be dialled. */
  function Dial(full: Option<ConnId>, archive: Option<ConnId>): (c: Option<EthClient>)
    ensures c.None? <==> full.None? && archive.None?
    ensures forall block: BlockNumber :: c.Some? ==>
              Some(c.value.ClientFor(block)) ==
              if (block.None? && full.Some?) || archive.None? then full else archive
  {
    if full.None? then
      if archive.None? then None else Some(EthClient(archive.value, archive.value))
    else if archive.None? then Some(EthClient(full.value, full.value))
    else Some(EthClient(full.value, archive.value))
  }
}
