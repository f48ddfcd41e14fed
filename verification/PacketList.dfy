// projects/noc_test/linux/hwSwIf/packetList.c: a singly linked queue whose `last` pointer is not reset
// when the queue runs empty.
module PacketList {
  import opened Words

  const EINVAL: int := -22
  const ENOMEM: int := -12
  const ENODATA: int := -61

  /** A heap cell; `freed` records that free() was called on it. */
  class Element<T> {
    var packet: T
    var next: Element?<T>
    ghost var freed: bool

    constructor (packet: T)
      ensures this.packet == packet && next == null && !freed
    {
      this.packet, next, freed := packet, null, false;
    }
  }

  class PacketList<T> {
    var first: Element?<T>
    var last: Element?<T>
    ghost var nodes: seq<Element<T>>

    /** The live cells, in queue order. `last` means something only while the queue is not empty. */
    ghost predicate Valid()
      reads this, nodes
    {
      && (forall i, j | 0 <= i < j < |nodes| :: nodes[i] != nodes[j])
      && (forall i | 0 <= i < |nodes| :: !nodes[i].freed)
      && (forall i {:trigger nodes[i].next} | 0 <= i < |nodes| :: nodes[i].next == if i + 1 < |nodes| then nodes[i + 1] else null)
      && first == (if nodes == [] then null else nodes[0])
      && (nodes != [] ==> last == nodes[|nodes| - 1])
    }

    ghost function Contents(): seq<T>
      reads this, nodes
    {
      seq(|nodes|, i requires 0 <= i < |nodes| reads this, nodes => nodes[i].packet)
    }

    constructor ()
      ensures Valid() && Contents() == []
    {
      first, last, nodes := null, null, [];
    }

    method IsEmpty() returns (empty: bool)
      requires Valid()
      ensures empty <==> Contents() == []
    {
      empty := first == null;
    }

    /** packetListAdd; `memory` tells whether malloc succeeds, None stands for a null packet. */
    method Add(newPacket: Option<T>, memory: bool) returns (errCode: int)
      requires Valid()
      modifies this, nodes
      ensures Valid() && fresh(set e | e in nodes && e !in old(nodes))
      ensures newPacket.None? ==> errCode == EINVAL && Contents() == old(Contents())
      ensures newPacket.Some? && !memory ==> errCode == ENOMEM && Contents() == old(Contents())
      ensures newPacket.Some? && memory ==> errCode == 0 && Contents() == old(Contents()) + [newPacket.value]
    {
      if newPacket.None? {
        return EINVAL;
      }
      if !memory {
        return ENOMEM;
      }
      var newElement := new Element(newPacket.value);
      var empty := IsEmpty();
      if empty {
        first := newElement;
        last := newElement;
      } else {
        assert last != null && !last.freed;  // no use after free
        last.next := newElement;
        last := newElement;
      }
      nodes := nodes + [newElement];
      return 0;
    }

    /** packetListPoll; polling the only element leaves `last` dangling. */
    method Poll() returns (errCode: int, packet: Option<T>)
      requires Valid()
      modifies this, nodes
      ensures Valid() && forall e | e in nodes :: e in old(nodes)
      ensures old(Contents()) == [] ==> errCode == ENODATA && packet == None && Contents() == []
      ensures old(Contents()) != [] ==>
                && errCode == 0 && packet == Some(old(Contents())[0]) && Contents() == old(Contents())[1..]
                && old(first).freed && last == old(last)
      ensures |old(nodes)| == 1 ==> last != null && last.freed
    {
      var empty := IsEmpty();
      if empty {
        return ENODATA, None;
      }
      var firstElement := first;
      packet := Some(firstElement.packet);
      first := firstElement.next;
      firstElement.freed := true;
      nodes := nodes[1..];
      return 0, packet;
    }
  }
}
