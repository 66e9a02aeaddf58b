/** The profile's pages, and the messages that carry them between sensor and display
    (src/ant_profiles/ant_tpms/ant_tpms.c). */
module Profile {
  import opened Words
  import opened Pages
  import opened Scheduler

  /** All pages of a profile. Those of the SDK's codecs, 80 and 81, are held as their payloads. */
  datatype AllPages = AllPages(page1: Page1, page16: Page16, page80: Payload, page81: Payload, page82: Page82)

  /** The payload a page is sent as. */
  function Encoded(p: AllPages, page: u8): Payload
    requires Known(page)
  {
    if page == PAGE_1 then EncodePage1(p.page1)
    else if page == PAGE_16 then EncodePage16(p.page16)
    else if page == PAGE_80 then p.page80
    else if page == PAGE_81 then p.page81
    else EncodePage82(p.page82)
  }

  /** A display's pages after it has received a message. */
  function Received(d: AllPages, page: u8, b: Payload): AllPages {
    if page == PAGE_1 then d.(page1 := DecodePage1(b))
    else if page == PAGE_16 then d.(page16 := DecodePage16(b))
    else if page == PAGE_80 then d.(page80 := b)
    else if page == PAGE_81 then d.(page81 := b)
    else if page == PAGE_82 then d.(page82 := DecodePage82(b))
    else d
  }

  /** A display that receives a sensor's page shows that page, up to its codec's rounding, and keeps
      all others. */
  lemma DisplayShowsPage(p: AllPages, d: AllPages, page: u8)
    requires Known(page)
    ensures Received(d, page, Encoded(p, page)) ==
      if page == 1 then d.(page1 := p.page1)
      else if page == 16 then
        d.(page16 := p.page16.(role := p.page16.role % 16, command := p.page16.command % 16))
      else if page == 80 then d.(page80 := p.page80)
      else if page == 81 then d.(page81 := p.page81)
      else d.(page82 := RoundedPage82(p.page82))
  {
    hide EncodePage1, DecodePage1, EncodePage16, DecodePage16, EncodePage82, DecodePage82, RoundedPage82;
    Page1RoundTrip(p.page1);
    Page16RoundTrip(p.page16);
    Page82RoundTrip(p.page82);
  }

  /** `ant_tpms_profile_t`, with the sensor's control block. `events` are the calls of its event
      handler, oldest first. */
  class TpmsProfile {
    var page1: Page1
    var page16: Page16
    var page80: Payload
    var page81: Payload
    var page82: Page82
    var messageCounter: u8
    var events: seq<u8>
    const controller: RequestController

    /** `ant_tpms_sens_init`; the SDK's default pages 80 and 81 are parameters. */
    constructor (page80: Payload, page81: Payload)
      ensures View() == AllPages(Page1(0, 3, 0xffff), Page16(0, 0, 1013, 0xffff, 0xffff), page80, page81,
                                 Page82(15, 15, 0, 0, 7))
      ensures messageCounter == 0 && events == [] && fresh(controller) && controller.state == Idle
    {
      page1, page16, page82 := DEFAULT_PAGE_1, DEFAULT_PAGE_16, DEFAULT_PAGE_82;
      this.page80, this.page81 := page80, page81;
      messageCounter, events := 0, [];
      controller := new RequestController();
    }

    function View(): AllPages
      reads this
    {
      AllPages(page1, page16, page80, page81, page82)
    }

    /** `sens_message_encode`. */
    method SensMessageEncode(message: array<u8>)
      requires message.Length == MESSAGE_SIZE
      modifies message, this`messageCounter, this`events, controller
      ensures Known(message[0]) && message[0] == SentPage(old(messageCounter), old(controller.Request()))
      ensures message[1..] == Encoded(View(), message[0])
      ensures messageCounter == NextCounter(old(messageCounter), old(controller.Request()))
      ensures old(controller.Request()).Some? && !Served(old(controller.Request())) ==>
        controller.state == Idle && controller.transmitCount == 0
      ensures events == old(events) + [message[0]]
    {
      hide EncodePage1, EncodePage16, EncodePage82, NextCounter, SentPage, Served;
      var page;
      page, messageCounter := controller.NextPageNumberGet(messageCounter);
      message[0] := page;
      if page == PAGE_1 {
        Page1Encode(message, page1);
      } else if page == PAGE_16 {
        Page16Encode(message, page16);
      } else if page == PAGE_80 {
        CopyPayload(message, page80);
      } else if page == PAGE_81 {
        CopyPayload(message, page81);
      } else if page == PAGE_82 {
        Page82Encode(message, page82);
      } else {
        return;
      }
      assert message[..] == [page] + Encoded(View(), page);
      events := events + [page];
    }

    /** `disp_message_decode`. */
    method DispMessageDecode(message: array<u8>)
      requires message.Length == MESSAGE_SIZE
      modifies this
      ensures View() == Received(old(View()), message[0], message[1..])
      ensures message[0] !in [1, 16, 80, 81, 82] ==> View() == old(View())
      ensures events == if message[0] in [1, 16, 80, 81, 82] then old(events) + [message[0]] else old(events)
      ensures messageCounter == old(messageCounter)
    {
      OneOfFive(message[0]);
      hide DecodePage1, DecodePage16, DecodePage82;
      var page, payload := message[0], message[1..];
      if page == PAGE_1 {
        page1 := DecodePage1(payload);
      } else if page == PAGE_16 {
        page16 := DecodePage16(payload);
      } else if page == PAGE_80 {
        page80 := payload;
      } else if page == PAGE_81 {
        page81 := payload;
      } else if page == PAGE_82 {
        page82 := DecodePage82(payload);
      } else {
        return;
      }
      events := events + [page];
    }
  }

  /** The SDK's codecs for pages 80 and 81, on pages held as payloads. */
  method CopyPayload(message: array<u8>, payload: Payload)
    requires message.Length == MESSAGE_SIZE
    modifies message
    ensures message[..] == [old(message[0])] + payload
  {
    forall i | 1 <= i < MESSAGE_SIZE {
      message[i] := payload[i - 1];
    }
  }
}
