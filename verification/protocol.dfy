/** The protocol resolver: IANA protocol numbers, as the decimal strings found in a flow record,
    to lower-case protocol names. */
module Protocol {
  import opened GoStrings

  /** The name given to every number the table does not know. */
  const Unknown: string := "unknown"

  /** The constant table of known protocol numbers. */
  const ProtocolNumToName: map<string, string> :=
    map["1" := "icmp", "6" := "tcp", "17" := "udp", "2" := "igmp", "89" := "ospf"]

  /** Every name the resolver can return. */
  const ProtocolNames: set<string> := {"icmp", "igmp", "tcp", "udp", "ospf", Unknown}

  /** The protocol name for a protocol number; the number is trimmed before the table lookup,
      and a number outside the table gives `Unknown`. The resolver is total. */
  function GetProtocolName(protocolNum: string): (name: string)
    ensures name in ProtocolNames
    ensures name == Unknown <==> TrimSpace(protocolNum) !in ProtocolNumToName
  {
    var key := TrimSpace(protocolNum);
    if key in ProtocolNumToName then ProtocolNumToName[key] else Unknown
  }

  /** The five known numbers and their names. */
  lemma KnownProtocols()
    ensures GetProtocolName("1") == "icmp"
    ensures GetProtocolName("2") == "igmp"
    ensures GetProtocolName("6") == "tcp"
    ensures GetProtocolName("17") == "udp"
    ensures GetProtocolName("89") == "ospf"
  {
    TrimSpaceOfTrimmed("1");
    TrimSpaceOfTrimmed("2");
    TrimSpaceOfTrimmed("6");
    TrimSpaceOfTrimmed("17");
    TrimSpaceOfTrimmed("89");
  }

  /** Every number other than the five known ones resolves to `Unknown`. */
  lemma OtherNumbersUnknown(protocolNum: string)
    requires TrimSpace(protocolNum) !in {"1", "2", "6", "17", "89"}
    ensures GetProtocolName(protocolNum) == Unknown
  {
    assert ProtocolNumToName.Keys == {"1", "6", "17", "2", "89"};
  }

  /** Names are non-empty and contain no comma, so a "port,name" key splits back at its comma. */
  lemma NamesHaveNoComma(name: string)
    requires name in ProtocolNames
    ensures name != [] && ',' !in name
  {
  }

  /** Surrounding white space does not matter: " 6 " is tcp. */
  lemma PaddedNumber()
    ensures GetProtocolName(" 6 ") == "tcp"
  {
    assert TrimLeft(" 6 ") == "6 " by {
      assert " 6 "[1..] == "6 ";
    }
    assert TrimRight("6 ") == "6" by {
      assert "6 "[..1] == "6";
    }
  }

  /** Trimming commutes with resolution: the name of a number is the name of its trimmed form. */
  lemma NameIgnoresPadding(protocolNum: string)
    ensures GetProtocolName(protocolNum) == GetProtocolName(TrimSpace(protocolNum))
  {
    TrimSpaceOfTrimmed(TrimSpace(protocolNum));
  }
}
