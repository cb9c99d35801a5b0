/**
 Message registration: the handler table of the protocol and the message cache of the parser.
 */
module Registries {
  import opened MessageQueues

  const MAX_MESSAGE_ID: int := 65536

  /** The registry key of a handler, made of type name and identifier. */
  datatype RefName = RefName(typename: string, msgid: int)

  class Registry {
    var regtable: map<int, RefName>
    var messages: map<int, string>
    var descriptors: set<string>

    /** The two tables agree: the same identifiers, all in range, under the same type. */
    ghost predicate Valid()
      reads this
    {
      && regtable.Keys == messages.Keys
      && forall id :: id in regtable ==> 0 <= id < MAX_MESSAGE_ID && regtable[id] == RefName(messages[id], id)
    }

    constructor ()
      ensures Valid() && regtable == map[] && descriptors == {}
    {
      regtable, messages, descriptors := map[], map[], {};
    }

    /** Importing descriptors; types only become known. */
    method LoadDescriptor(types: set<string>)
      requires Valid()
      modifies this`descriptors
      ensures Valid() && descriptors == old(descriptors) + types
    {
      descriptors := descriptors + types;
    }

    /** The parser's part: refuses a known identifier and an unknown type. */
    method RegisteMessage(msgid: int, name: string) returns (ok: bool)
      modifies this`messages
      ensures ok <==> msgid !in old(messages) && name in descriptors
      ensures messages == if ok then old(messages)[msgid := name] else old(messages)
    {
      if msgid in messages || name !in descriptors {
        return false;
      }
      messages := messages[msgid := name];
      return true;
    }

    /** Registers in both tables or in neither. */
    method RegMessage(msgid: int, name: string) returns (r: Option<RefName>)
      requires Valid()
      modifies this`regtable, this`messages
      ensures Valid()
      ensures r.Some? <==> 0 <= msgid < MAX_MESSAGE_ID && msgid !in old(messages) && name in descriptors
      ensures r.Some? ==> r.value == RefName(name, msgid) && regtable == old(regtable)[msgid := r.value]
                          && messages == old(messages)[msgid := name]
      ensures r.None? ==> regtable == old(regtable) && messages == old(messages)
    {
      if msgid < 0 || msgid >= MAX_MESSAGE_ID || msgid in regtable {
        return None;
      }
      var ok := RegisteMessage(msgid, name);
      if !ok {
        return None;
      }
      regtable := regtable[msgid := RefName(name, msgid)];
      return Some(RefName(name, msgid));
    }

    method FindName(msgid: int) returns (r: Option<RefName>)
      requires Valid()
      ensures r == if msgid in messages then Some(RefName(messages[msgid], msgid)) else None
    {
      if msgid < 0 || msgid >= MAX_MESSAGE_ID || msgid !in regtable {
        return None;
      }
      return Some(regtable[msgid]);
    }

    method NewMessage(msgid: int) returns (r: Option<string>)
      ensures r == if msgid in messages && messages[msgid] in descriptors then Some(messages[msgid]) else None
    {
      if msgid !in messages || messages[msgid] !in descriptors {
        return None;
      }
      return Some(messages[msgid]);
    }

    /** Looks in the cache; the attempt to make a missing message never succeeds, so the cache never grows here. */
    method GetMessage(msgid: int) returns (r: Option<string>)
      requires Valid()
      ensures r == if msgid in messages then Some(messages[msgid]) else None
    {
      if msgid in messages {
        return Some(messages[msgid]);
      }
      r := NewMessage(msgid);
      if r.Some? {
        assert false; // the insertion that would follow is never reached
      }
    }

    /**
     A message decodes exactly if its identifier is registered and its payload is not empty and
     parses as the type; and then it has a handler name, so the branch for one that has none is
     never taken.
     */
    method Dispatch(msgid: int, payloadSize: nat, parses: bool) returns (decoded: bool, name: Option<RefName>)
      requires Valid()
      ensures decoded <==> payloadSize > 0 && msgid in messages && parses
      ensures name == if decoded then Some(RefName(messages[msgid], msgid)) else None
    {
      if payloadSize == 0 {
        return false, None;
      }
      var m := GetMessage(msgid);
      if m.None? || !parses {
        return false, None;
      }
      name := FindName(msgid);
      if name.None? {
        assert false; // a message that was found is registered
      }
      return true, name;
    }
  }
}
