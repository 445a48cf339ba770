/**
 * The checks the booking dialogue applies to what a guest types
 * (number of guests, time, name, phone) and the parsing of a booking id
 * typed by an administrator.
 */
module Validators {
  import opened Wrappers
  import opened Text
  import opened Clock

  /** Opening hours: a booking may start from 10:00 up to and including 22:00. */
  const OpenTime: TimeOfDay := 10 * 60
  const CloseTime: TimeOfDay := 22 * 60

  const MinGuests := 1
  const MaxGuests := 30
  const MinNameLength := 2
  const MinPhoneLength := 6

  /**
   * The messages a rejected input is answered with. There is no
   * "outside opening hours" error: the code raises one but catches it
   * itself and answers with the format error instead.
   */
  datatype InputError = GuestsNaN | GuestsRange | TimeFormat | NameShort | PhoneShort

  // ---------------------------------------------------------------------
  // Number of guests

  /** The guest count as checked: stripped, with every space removed. */
  function GuestsText(value: string): string {
    RemoveChar(Strip(value), ' ')
  }

  /** `parse_guests_localized`. */
  function ParseGuests(value: string): (r: Result<int, InputError>)
    ensures r.Ok? ==> MinGuests <= r.value <= MaxGuests
    ensures r == Err(GuestsNaN) <==> !IsDigits(GuestsText(value))
    ensures r.Ok? <==> IsDigits(GuestsText(value))
                       && MinGuests <= DigitsValue(GuestsText(value)) <= MaxGuests
    ensures r.Ok? ==> r.value == DigitsValue(GuestsText(value))
  {
    var s := GuestsText(value);
    if !IsDigits(s) then Err(GuestsNaN)
    else
      var n := DigitsValue(s);
      if !(MinGuests <= n <= MaxGuests) then Err(GuestsRange) else Ok(n)
  }

  /** Any count from 1 to 30, written out with whitespace around it, is accepted as itself. */
  lemma ParseGuestsRoundTrip(n: nat, pre: string, post: string)
    requires MinGuests <= n <= MaxGuests
    requires AllSpace(pre) && AllSpace(post)
    ensures ParseGuests(pre + NatToDigits(n) + post) == Ok(n)
  {
    var d := NatToDigits(n);
    StripPadded(pre, d, post);
    RemoveCharAbsent(d, ' ');
    DigitsRoundTrip(n);
  }

  /** A space between two digits of the count is dropped: "1 2" is read as "12". */
  lemma ParseGuestsInnerSpace(a: char, b: char)
    requires IsDigitChar(a) && IsDigitChar(b)
    ensures ParseGuests([a, ' ', b]) == ParseGuests([a, b])
  {
    var x, y := [a, ' ', b], [a, b];
    StripClean(x);
    StripClean(y);
    assert x == [a] + ([' '] + [b]);
    RemoveCharCons(a, [' '] + [b], ' ');
    RemoveCharCons(' ', [b], ' ');
    RemoveCharAbsent([b], ' ');
    RemoveCharAbsent(y, ' ');
    ParseGuestsSameText(x, y);
  }

  /** Texts that check as the same digits are read the same way. */
  lemma ParseGuestsSameText(x: string, y: string)
    requires GuestsText(x) == GuestsText(y)
    ensures ParseGuests(x) == ParseGuests(y)
  {
  }

  /** Texts that check as digits of the same value are read the same way. */
  lemma ParseGuestsSameValue(x: string, y: string)
    requires IsDigits(GuestsText(x)) && IsDigits(GuestsText(y))
    requires DigitsValue(GuestsText(x)) == DigitsValue(GuestsText(y))
    ensures ParseGuests(x) == ParseGuests(y)
  {
  }

  /** Leading zeros do not change the count, as `int` reads them: "07" is 7. */
  lemma ParseGuestsLeadingZero(d: string)
    requires IsDigits(d)
    ensures ParseGuests("0" + d) == ParseGuests(d)
  {
    DigitsLeadingZero(d);
    GuestsTextDigits(d);
    GuestsTextDigits("0" + d);
    ParseGuestsSameValue("0" + d, d);
  }

  /** A count written as bare digits is checked as written. */
  lemma GuestsTextDigits(d: string)
    requires IsDigits(d)
    ensures GuestsText(d) == d
  {
    DigitsPlain(d);
    assert !IsSpace(d[0]) && !IsSpace(d[|d| - 1]);
    StripClean(d);
    assert Strip(d) == d;
    RemoveCharAbsent(d, ' ');
  }

  lemma {:induction false} DigitsLeadingZero(d: string)
    requires AllDigits(d)
    ensures AllDigits("0" + d) && DigitsValue("0" + d) == DigitsValue(d)
  {
    if d != [] {
      var p := d[..|d| - 1];
      DigitsLeadingZero(p);
      assert ("0" + d)[..|d|] == "0" + p;
    }
  }

  /** Removing a character from a text looks at its first character, then the rest. */
  lemma RemoveCharCons(c: char, t: string, x: char)
    ensures RemoveChar([c] + t, x) == if c == x then RemoveChar(t, x) else [c] + RemoveChar(t, x)
  {
    assert ([c] + t)[1..] == t;
  }

  /** A well-formed count outside 1..30 is refused with the range error. */
  lemma ParseGuestsOutOfRange(n: nat)
    requires n < MinGuests || n > MaxGuests
    ensures ParseGuests(NatToDigits(n)) == Err(GuestsRange)
  {
    var d := NatToDigits(n);
    StripPadded([], d, []);
    assert [] + d + [] == d;
    RemoveCharAbsent(d, ' ');
    DigitsRoundTrip(n);
  }

  // ---------------------------------------------------------------------
  // Time of the booking

  /**
   * The time as handed to `strptime`: stripped, spaces removed, dots turned
   * into colons, and four bare digits split as HH:MM.
   */
  function TimeText(value: string): string {
    var s := ReplaceChar(RemoveChar(Strip(value), ' '), '.', ':');
    if IsDigits(s) && |s| == 4 then s[..2] + ":" + s[2..] else s
  }

  /** `parse_time_localized`: only times within opening hours, and one error for every refusal. */
  function ParseTime(value: string): (r: Result<TimeOfDay, InputError>)
    ensures r.Ok? ==> OpenTime <= r.value <= CloseTime
    ensures r.Err? ==> r.error == TimeFormat
    ensures r.Ok? <==> ParseClock(TimeText(value)).Some?
                       && OpenTime <= ParseClock(TimeText(value)).value <= CloseTime
    ensures r.Ok? ==> ParseClock(TimeText(value)) == Some(r.value)
  {
    match ParseClock(TimeText(value))
    case None => Err(TimeFormat)
    case Some(t) => if OpenTime <= t <= CloseTime then Ok(t) else Err(TimeFormat)
  }

  lemma ReplaceCharAbsent(s: string, a: char, b: char)
    requires a !in s
    ensures ReplaceChar(s, a, b) == s
  {
  }

  /** Two digits, a separator, two digits: nothing for the clean-up to strip or remove. */
  lemma CleanClockText(h: string, sep: char, m: string)
    requires |h| == 2 && |m| == 2 && AllDigits(h) && AllDigits(m)
    requires sep == ':' || sep == '.'
    ensures TimeText(h + [sep] + m) == h + ":" + m
  {
    var s := h + [sep] + m;
    DigitsPlain(h);
    DigitsPlain(m);
    assert s[0] == h[0] && s[4] == m[1];
    StripClean(s);
    assert ' ' !in s;
    RemoveCharAbsent(s, ' ');
    var r := ReplaceChar(s, '.', ':');
    assert r == h + ":" + m;
    assert !IsDigitChar(r[2]);
  }

  lemma CleanBareText(h: string, m: string)
    requires |h| == 2 && |m| == 2 && AllDigits(h) && AllDigits(m)
    ensures TimeText(h + m) == h + ":" + m
  {
    var s := h + m;
    DigitsPlain(s);
    assert s[0] == h[0] && s[3] == m[1];
    StripClean(s);
    RemoveCharAbsent(s, ' ');
    ReplaceCharAbsent(s, '.', ':');
    assert s[..2] == h && s[2..] == m;
  }

  /**
   * A time within opening hours is accepted when written HH:MM, HH.MM or
   * HHMM; the HH:MM form is the one the dialogue stores and reads back.
   */
  lemma ParseTimeRoundTrip(t: TimeOfDay)
    requires OpenTime <= t <= CloseTime
    ensures ParseTime(FormatClock(t)) == Ok(t)
    ensures ParseTime(Pad2(Hour(t)) + "." + Pad2(Minute(t))) == Ok(t)
    ensures ParseTime(Pad2(Hour(t)) + Pad2(Minute(t))) == Ok(t)
  {
    var h, m := Pad2(Hour(t)), Pad2(Minute(t));
    ClockRoundTrip(t);
    CleanClockText(h, ':', m);
    ParseTimeVia(h + [':'] + m, h + ":" + m, t);
    CleanClockText(h, '.', m);
    ParseTimeVia(h + ['.'] + m, h + ":" + m, t);
    CleanBareText(h, m);
    ParseTimeVia(h + m, h + ":" + m, t);
  }

  /** A text that cleans up to a time within opening hours is accepted as that time. */
  lemma ParseTimeVia(s: string, clean: string, t: TimeOfDay)
    requires TimeText(s) == clean
    requires ParseClock(clean) == Some(t) && OpenTime <= t <= CloseTime
    ensures ParseTime(s) == Ok(t)
  {
  }

  /**
   * A well-formed time outside opening hours is refused with the format
   * error, not with a message about the opening hours.
   */
  lemma ParseTimeOutOfHours(t: TimeOfDay)
    requires t < OpenTime || t > CloseTime
    ensures ParseTime(FormatClock(t)) == Err(TimeFormat)
  {
    ClockRoundTrip(t);
    CleanClockText(Pad2(Hour(t)), ':', Pad2(Minute(t)));
  }

  // ---------------------------------------------------------------------
  // Name and phone

  /** The stripped text, if it has at least `minLen` characters. */
  function StrippedAtLeast(text: string, minLen: nat, error: InputError): (r: Result<string, InputError>)
    ensures r.Ok? <==> |Strip(text)| >= minLen
    ensures r.Ok? ==> r.value == Strip(text)
    ensures r.Err? ==> r.error == error
  {
    var s := Strip(text);
    if |s| < minLen then Err(error) else Ok(s)
  }

  /** The name step: at least two characters once stripped; the stripped name is kept. */
  function CheckName(text: string): (r: Result<string, InputError>)
    ensures r.Ok? ==> |r.value| >= MinNameLength
    ensures r.Err? ==> r.error == NameShort
  {
    StrippedAtLeast(text, MinNameLength, NameShort)
  }

  /** The phone step: at least six characters once stripped; no other format rule. */
  function CheckPhone(text: string): (r: Result<string, InputError>)
    ensures r.Ok? ==> |r.value| >= MinPhoneLength
    ensures r.Err? ==> r.error == PhoneShort
  {
    StrippedAtLeast(text, MinPhoneLength, PhoneShort)
  }

  /** What the check keeps passes the same check again unchanged. */
  lemma StrippedAtLeastIdempotent(text: string, minLen: nat, error: InputError)
    requires StrippedAtLeast(text, minLen, error).Ok?
    ensures StrippedAtLeast(StrippedAtLeast(text, minLen, error).value, minLen, error)
            == StrippedAtLeast(text, minLen, error)
  {
    StripIdempotent(text);
  }

  /**
   * Whitespace around a name or phone number is ignored: only the length of
   * what is between counts.
   */
  lemma StrippedAtLeastPadded(pre: string, core: string, post: string, minLen: nat, error: InputError)
    requires AllSpace(pre) && AllSpace(post)
    requires core == [] || (!IsSpace(core[0]) && !IsSpace(core[|core| - 1]))
    ensures StrippedAtLeast(pre + core + post, minLen, error)
            == if |core| >= minLen then Ok(core) else Err(error)
  {
    StripPadded(pre, core, post);
  }

  // ---------------------------------------------------------------------
  // Booking ids typed by an administrator

  /** How a message meant to carry a booking id is read. */
  datatype IdInput =
    | AskForId           // no id given: the bot asks for one
    | NotANumber         // the id is not a number: the bot says so
    | Ignored            // a command typed while an id is awaited: no answer
    | BookingId(id: nat)

  /** `/del <id>`: the second word, with leading '#' removed, must be digits. */
  function ParseDelCommand(text: string): (r: IdInput)
    ensures r != Ignored
    ensures r == AskForId <==> |Words(text)| < 2
    ensures r.BookingId? <==> |Words(text)| >= 2 && IsDigits(LStripChar(Words(text)[1], '#'))
    ensures r.BookingId? ==> r.id == DigitsValue(LStripChar(Words(text)[1], '#'))
  {
    var parts := Words(text);
    if |parts| < 2 then AskForId
    else
      var bid := LStripChar(parts[1], '#');
      if IsDigits(bid) then BookingId(DigitsValue(bid)) else NotANumber
  }

  /** `#?\d+` with surrounding whitespace, as the id reply filter matches it. */
  predicate IdReplyShape(core: string) {
    IsDigits(core) || (|core| > 1 && core[0] == '#' && IsDigits(core[1..]))
  }

  /**
   * A reply while an id is awaited: a number, optionally after one '#',
   * with whitespace around it, is an id; any other text is refused unless it
   * starts with '/', which is left to the command handlers.
   */
  function ParseIdReply(text: string): (r: IdInput)
    ensures r != AskForId
    ensures r.BookingId? <==> IdReplyShape(Strip(text))
    ensures r.BookingId? ==> r.id == DigitsValue(LStripChar(Strip(text), '#'))
    ensures r == Ignored <==> !IdReplyShape(Strip(text)) && StartsWith(text, "/")
  {
    var core := Strip(text);
    if IsDigits(core) then BookingId(DigitsValue(core))
    else if |core| > 1 && core[0] == '#' && IsDigits(core[1..]) then
      assert LStripChar(core[1..], '#') == core[1..];
      BookingId(DigitsValue(core[1..]))
    else if StartsWith(text, "/") then Ignored
    else NotANumber
  }

  /**
   * The id reader of the handler at main.py:922: stripped, leading '#'
   * removed, every space removed. Registered after a catch-all handler for
   * the same dialogue state, so the bot never reaches it.
   */
  function ParseIdWaiting(text: string): (r: IdInput)
    ensures r != AskForId
    ensures r == Ignored <==> StartsWith(Strip(text), "/")
    ensures r.BookingId? <==> !StartsWith(Strip(text), "/") && IsDigits(WaitingIdText(text))
    ensures r.BookingId? ==> r.id == DigitsValue(WaitingIdText(text))
  {
    if StartsWith(Strip(text), "/") then Ignored
    else
      var bid := WaitingIdText(text);
      if IsDigits(bid) then BookingId(DigitsValue(bid)) else NotANumber
  }

  /** What that reader hands to `int`: stripped, leading '#'s removed, every space removed. */
  function WaitingIdText(text: string): string {
    RemoveChar(LStripChar(Strip(text), '#'), ' ')
  }

  /** The shadowed reader drops spaces inside the number: "1 2" is booking 12. */
  lemma ParseIdWaitingInnerSpace(a: char, b: char)
    requires IsDigitChar(a) && IsDigitChar(b)
    ensures ParseIdWaiting([a, ' ', b]) == BookingId(DigitsValue([a, b]))
  {
    StripInnerSpace(a, b);
    LStripNoHash([a, ' ', b]);
    RemoveInnerSpace(a, b);
    WaitingReadsDigits([a, ' ', b], [a, ' ', b], [a, ' ', b], [a, b]);
  }

  /** The shadowed reader removes every leading '#': "##5" is booking 5. */
  lemma ParseIdWaitingHashes(d: string)
    requires IsDigits(d)
    ensures ParseIdWaiting("##" + d) == BookingId(DigitsValue(d))
  {
    StripHashes(d);
    LStripHashes(d);
    DigitsPlain(d);
    RemoveCharAbsent(d, ' ');
    WaitingReadsDigits("##" + d, "##" + d, d, d);
  }

  /** The reader's steps one by one: strip, drop the '#'s, drop the spaces, read the digits. */
  lemma WaitingReadsDigits(text: string, core: string, bare: string, d: string)
    requires Strip(text) == core && |core| > 0 && core[0] != '/'
    requires LStripChar(core, '#') == bare && RemoveChar(bare, ' ') == d && IsDigits(d)
    ensures ParseIdWaiting(text) == BookingId(DigitsValue(d))
  {
    NotCommand(core);
  }

  lemma StripInnerSpace(a: char, b: char)
    requires IsDigitChar(a) && IsDigitChar(b)
    ensures Strip([a, ' ', b]) == [a, ' ', b]
  {
    StripClean([a, ' ', b]);
  }

  lemma RemoveInnerSpace(a: char, b: char)
    requires IsDigitChar(a) && IsDigitChar(b)
    ensures RemoveChar([a, ' ', b], ' ') == [a, b]
  {
    assert [a, ' ', b] == [a] + ([' '] + [b]);
    RemoveCharCons(a, [' '] + [b], ' ');
    RemoveCharCons(' ', [b], ' ');
    RemoveCharAbsent([b], ' ');
  }

  lemma LStripNoHash(s: string)
    requires |s| > 0 && s[0] != '#'
    ensures LStripChar(s, '#') == s
  {
  }

  /** `lstrip` drops a leading copy of the character and carries on. */
  lemma LStripCons(c: char, t: string)
    ensures LStripChar([c] + t, c) == LStripChar(t, c)
  {
    assert ([c] + t)[1..] == t;
  }

  lemma StripHashes(d: string)
    requires IsDigits(d)
    ensures Strip("##" + d) == "##" + d
  {
    var x := "##" + d;
    DigitsPlain(d);
    assert !IsSpace(x[0]) && x[|x| - 1] == d[|d| - 1];
    StripClean(x);
  }

  lemma LStripHashes(d: string)
    requires IsDigits(d)
    ensures LStripChar("##" + d, '#') == d
  {
    assert "##" + d == ['#'] + (['#'] + d);
    LStripCons('#', ['#'] + d);
    LStripCons('#', d);
    LStripNoHash(d);
  }

  /** A text that does not begin with '/' is not a command. */
  lemma NotCommand(s: string)
    requires |s| > 0 && s[0] != '/'
    ensures !StartsWith(s, "/")
  {
    assert s[..1][0] == s[0];
  }

  /** `/del` alone asks for an id; `/del 12` and `/del #12` delete booking 12. */
  lemma ParseDelCommandRoundTrip(n: nat)
    ensures ParseDelCommand("/del") == AskForId
    ensures ParseDelCommand("/del " + NatToDigits(n)) == BookingId(n)
    ensures ParseDelCommand("/del #" + NatToDigits(n)) == BookingId(n)
  {
    assert Words("/del") == ["/del"] by {
      DelWordPlain();
      WordsSingle([], "/del");
      assert [] + "/del" == "/del";
    }
    DigitsRoundTrip(n);
    DelCommandDigits(NatToDigits(n));
  }

  lemma DelWordPlain()
    ensures |"/del"| > 0 && NoSpace("/del")
  {
  }

  lemma DelCommandDigits(d: string)
    requires IsDigits(d)
    ensures ParseDelCommand("/del " + d) == BookingId(DigitsValue(d))
    ensures ParseDelCommand("/del #" + d) == BookingId(DigitsValue(d))
  {
    DelCommandWithId("/del " + d, d, d);
    var h := "#" + d;
    assert "/del #" + d == "/del " + h;
    DelCommandWithId("/del #" + d, h, d);
  }

  /** `/del ` followed by a word that is a number, possibly after '#'. */
  lemma DelCommandWithId(text: string, w: string, d: string)
    requires IsDigits(d) && (w == d || w == "#" + d) && text == "/del " + w
    ensures ParseDelCommand(text) == BookingId(DigitsValue(d))
  {
    DigitsPlain(d);
    DelWordPlain();
    assert |w| > 0 && NoSpace(w) by {
      if w != d {
        assert w[1..] == d;
      }
    }
    assert Words("/del " + w) == ["/del", w] by {
      assert "/del " + w == "/del" + " " + w;
      WordsPair("/del", w);
    }
    assert LStripChar(w, '#') == d by {
      if w != d {
        assert w[1..] == d;
        assert LStripChar(d, '#') == d;
      }
    }
  }

  /** An id written with whitespace around it, with or without a '#', is read as itself. */
  lemma ParseIdReplyRoundTrip(n: nat, pre: string, post: string)
    requires AllSpace(pre) && AllSpace(post)
    ensures ParseIdReply(pre + NatToDigits(n) + post) == BookingId(n)
    ensures ParseIdReply(pre + "#" + NatToDigits(n) + post) == BookingId(n)
  {
    DigitsRoundTrip(n);
    IdReplyPlain(NatToDigits(n), pre, post);
    IdReplyHash(NatToDigits(n), pre, post);
  }

  lemma IdReplyPlain(d: string, pre: string, post: string)
    requires IsDigits(d) && AllSpace(pre) && AllSpace(post)
    ensures ParseIdReply(pre + d + post) == BookingId(DigitsValue(d))
  {
    IdReplyWithId(pre + d + post, d, d, pre, post);
  }

  lemma IdReplyHash(d: string, pre: string, post: string)
    requires IsDigits(d) && AllSpace(pre) && AllSpace(post)
    ensures ParseIdReply(pre + "#" + d + post) == BookingId(DigitsValue(d))
  {
    assert pre + "#" + d + post == pre + ("#" + d) + post;
    IdReplyWithId(pre + "#" + d + post, "#" + d, d, pre, post);
  }

  /** A reply whose stripped text is a number, possibly after one '#'. */
  lemma IdReplyWithId(text: string, w: string, d: string, pre: string, post: string)
    requires IsDigits(d) && (w == d || w == "#" + d)
    requires AllSpace(pre) && AllSpace(post) && text == pre + w + post
    ensures ParseIdReply(text) == BookingId(DigitsValue(d))
  {
    DigitsPlain(d);
    assert w[0] != ' ' && !IsSpace(w[0]) && w[|w| - 1] == d[|d| - 1] by {
      if w != d {
        assert w[1..] == d;
      }
    }
    assert Strip(pre + w + post) == w by {
      StripPadded(pre, w, post);
    }
    if w != d {
      assert w[1..] == d;
      assert !IsDigitChar(w[0]);
    }
  }

  /**
   * Every reply the live id handler accepts is read the same way by the
   * shadowed one.
   */
  lemma IdReadersAgree(text: string)
    requires ParseIdReply(text).BookingId?
    ensures ParseIdWaiting(text) == ParseIdReply(text)
  {
    var core := Strip(text);
    if IsDigits(core) {
      assert ParseIdWaiting(text) == BookingId(DigitsValue(core)) by {
        DigitsPlain(core);
        LStripNoHash(core);
        RemoveCharAbsent(core, ' ');
        WaitingReadsDigits(text, core, core, core);
      }
    } else {
      var d := core[1..];
      assert ParseIdWaiting(text) == BookingId(DigitsValue(d)) by {
        DigitsPlain(d);
        assert core == ['#'] + d;
        LStripCons('#', d);
        LStripNoHash(d);
        RemoveCharAbsent(d, ' ');
        WaitingReadsDigits(text, core, d, d);
      }
    }
  }
}
