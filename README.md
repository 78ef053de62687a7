# stoqdrivers core, modelled in Dafny

A model of the core of stoqdrivers, a Python library of drivers for Brazilian
fiscal printers (ECF) and non-fiscal ESC/POS receipt printers.

## Model

| member | source | states |
|---|---|---|
| Utils.Str2Bytes | stoqdrivers/utils.py:75-78 | one byte per character, and a ValueError exactly when some character is above 255 |
| Utils.Bytes2Str | stoqdrivers/utils.py:81-82 | one character per byte, with the byte's value as code point |
| Utils.Bytes2StrRoundTrip | stoqdrivers/utils.py:75-82 | str2bytes(bytes2str(data)) gives data back |
| Utils.Str2BytesRoundTrip | stoqdrivers/utils.py:75-82 | a str of code points below 256 survives str2bytes then bytes2str |
| Utils.Bits2ByteIsWeightedSum | stoqdrivers/utils.py:85-86 | the packing is the sum of 2 ** i over the set bits, i counted from the end |
| Utils.Bits2ByteBound | stoqdrivers/utils.py:85-86 | n bits pack to a number below 2 ** n |
| Utils.Matrix2Graphics | stoqdrivers/utils.py:89-124 | iterating the generator to its end gives the strips yielded, in order, together with the exception that stopped it, if any |
| Utils.UnsupportedApiRejected | stoqdrivers/utils.py:90-91 | any interface other than 8 and 24 bits raises ValueError before any strip |
| Utils.YieldedBeforeNarrow | stoqdrivers/utils.py:95-106 | the k-th strip yielded is the strip of rows k * sub_len onwards; the run raises, and then only IndexError, exactly when some row is narrower than the first, and the strip after the last one yielded holds such a row |
| Utils.Matrix2GraphicsBlank | stoqdrivers/utils.py:101-124 | a bitmap with no bit set yields strips of NUL characters only, the centring pad included |
| Utils.StripShape | stoqdrivers/utils.py:93-121 | ceil(rows / sub_len) strips of 3 * multiplier bytes per column, reporting the byte count (8-bit) or a third of it (24-bit) |
| Utils.CenteringPrependsZeros | stoqdrivers/utils.py:116-120 | centring raises exactly what the plain run raises, yields as many strips, and only prepends int(diff / 2) NUL characters to each strip |
| Abicomp.Table | stoqdrivers/abicomp.py:29-95 | every TABLE value is a single byte in 0xA1-0xDF other than 0xBF, and only characters from U+00A1 up have one |
| Abicomp.RTable | stoqdrivers/abicomp.py:96 | RTABLE has an entry exactly for the bytes 0xA1-0xDF other than 0xBF |
| Abicomp.TableThenRTable | stoqdrivers/abicomp.py:29-96 | every table character is given back by RTABLE from its byte |
| Abicomp.RTableThenTable | stoqdrivers/abicomp.py:29-96 | every RTABLE character is mapped by TABLE to the byte it came from |
| Abicomp.TableInverse | stoqdrivers/abicomp.py:29-96 | TABLE[c] == b exactly when RTABLE[b] == c |
| Abicomp.TableInjective | stoqdrivers/abicomp.py:29-95 | no two characters share a table byte |
| Abicomp.Utf8 | stoqdrivers/abicomp.py:107 | c.encode() is one to four bytes, the code point itself below 0x80 and only bytes from 0x80 up otherwise |
| Abicomp.EncodeChar | stoqdrivers/abicomp.py:107 | each character encodes to at least one byte |
| Abicomp.DecodeByte | stoqdrivers/abicomp.py:119-120 | every byte below 0xA1 decodes to the character with its value |
| Abicomp.CodecEncode | stoqdrivers/abicomp.py:127-131 | empty input gives (b"", 0); otherwise the count is the number of characters and the output has at least as many bytes |
| Abicomp.CodecDecode | stoqdrivers/abicomp.py:133-137 | empty input gives ("", 0); otherwise one character per byte and the count is the number of bytes |
| Abicomp.JoinEncodeLength | stoqdrivers/abicomp.py:99-107 | the joined encoding is never shorter than the text, and is exactly as long when every character is a table character or ASCII |
| Abicomp.RoundTrip | stoqdrivers/abicomp.py:99-120 | decode(encode(s)) == s exactly when every character of s is a table character or ASCII |
| Abicomp.CodecRoundTrip | stoqdrivers/abicomp.py:127-137 | the same round trip through Codec.encode and Codec.decode |
| Abicomp.AsciiEncodesToItself | stoqdrivers/abicomp.py:99-107 | ASCII text encodes to its own code points |
| Abicomp.DecodeBytes | stoqdrivers/abicomp.py:110-120 | bytes below 0xA1 decode to chr(byte) and table bytes to the character TABLE maps to that byte |
| Abicomp.SelfTestKeys | stoqdrivers/abicomp.py:156-159 | the joined table characters survive encode then decode |
| Abicomp.SelfTestMixed | stoqdrivers/abicomp.py:161-162 | 'não dîz' survives encode then decode |
| Serial.Port.Read | stoqdrivers/serialbase.py:61-70 | a read of the pyserial port opened with a 3-second timeout returns the run of at most n bytes at the head of the script and removes it; a timeout returns nothing and is used up |
| Serial.Port.Write | stoqdrivers/serialbase.py:61-70 | the written bytes are appended to the log and the script is untouched |
| Serial.ReadBytes | stoqdrivers/serialbase.py:113-116 | at most n bytes, each the next byte of the script, stopping early only at a timeout or the end |
| Serial.ReadKeepsOrder | stoqdrivers/serialbase.py:113-116 | what the device sent is what the read returned followed by what remains |
| Serial.SerialBase.Default | stoqdrivers/serialbase.py:78-83 | the defaults are prefix ESC, empty suffix and delimiter CR |
| Serial.SerialBase.Write | stoqdrivers/serialbase.py:107-111 | one byte per character is appended to the port; a character above 255 raises ValueError and nothing is sent |
| Serial.SerialBase.Read | stoqdrivers/serialbase.py:113-116 | the bytes read, one character each |
| Serial.SerialBase.ReadLine | stoqdrivers/serialbase.py:118-136 | the loop returns exactly what the readline specification gives and consumes exactly the script it reads |
| Serial.SerialBase.WriteLine | stoqdrivers/serialbase.py:103-105 | exactly CMD_PREFIX + data + CMD_SUFFIX is written, then the reply line is read; nothing is written or read when that frame is not a byte string |
| Serial.ReadLineSplits | stoqdrivers/serialbase.py:127-136 | a line read is the characters heard before the first delimiter; the delimiter is consumed and excluded and the rest is left for the next read |
| Serial.NoDelimiterTimesOut | stoqdrivers/serialbase.py:120-136 | a reply that never sends the delimiter ends in DriverError |
| Serial.SilencesCount | stoqdrivers/serialbase.py:127-131 | each empty read adds one to the retry counter |
| Serial.ElevenSilencesTimeOut | stoqdrivers/serialbase.py:120-131 | more than ten empty reads in a row raise DriverError |
| Serial.TenSilencesTolerated | stoqdrivers/serialbase.py:127-132 | up to ten empty reads followed by a byte read the same as the byte alone, because a non-empty read resets the counter |
| Capabilities.NewCapability | stoqdrivers/printers/capabilities.py:71-91 | max_len with all of max_size, min_size, digits and a non-zero decimals raises ValueError, as does digits with max_size; with digits, a decimals of 309 or more or digits of 309 or more raise OverflowError and a decimals of -324 or less raises ZeroDivisionError; otherwise the stored max_size is the argument itself and min_size is `min_size or 0` |
| Capabilities.CheckValue | stoqdrivers/printers/capabilities.py:93-115 | every refusal is a CapabilityError |
| Capabilities.StringMode | stoqdrivers/printers/capabilities.py:94-103 | with a max_len, exactly the strs of length within [min_len, max_len] pass, min_len counting only when non-zero |
| Capabilities.NumericMode | stoqdrivers/printers/capabilities.py:104-115 | with both sizes non-zero, exactly the numbers within [min_size, max_size] pass |
| Capabilities.Unchecked | stoqdrivers/printers/capabilities.py:104-105 | without max_len, and unless both sizes are non-zero, every value passes |
| Capabilities.DigitsNeverBound | stoqdrivers/printers/capabilities.py:77-89 | a digits-only capability whose derived bound stays in float range accepts every value, because that bound is overwritten |
| Capabilities.ZeroMinSizeNeverBounds | stoqdrivers/printers/capabilities.py:88-105 | a missing or zero min_size disables the range check |
| PrinterBase.GetItems | stoqdrivers/printers/base.py:54-56 | the table's identifiers, in order |
| PrinterBase.Lookup | stoqdrivers/printers/base.py:60-61 | a hit is an entry of the table; a miss means no entry has the identifier |
| PrinterBase.GetValue | stoqdrivers/printers/base.py:58-66 | a known identifier gives its constant, an unknown one the default when given, and ValueError otherwise |
| PrinterBase.GetValueOfItem | stoqdrivers/printers/base.py:54-66 | every listed item maps back to its own constant |
| PrinterBase.FirstMatch | stoqdrivers/printers/base.py:85-87 | the first tuple whose enum matches |
| PrinterBase.GetTaxConstant | stoqdrivers/printers/base.py:84-87 | the constant of the first tuple whose enum matches, and None exactly when none matches |
| Fiscal.AddItemCheck | stoqdrivers/printers/fiscal.py:114-133 | a totalized coupon raises AlreadyTotalized before anything else; the item reaches the driver exactly when discount and surcharge are not both set, the unit rule holds, the price is non-zero and neither adjustment is negative; every other refusal is a TypeError, ValueError or InvalidValue |
| Fiscal.DiscountWithSurcharge | stoqdrivers/printers/fiscal.py:117-118 | discount and surcharge together raise TypeError |
| Fiscal.UnitRule | stoqdrivers/printers/fiscal.py:119-126 | a description with a non-CUSTOM unit, or a CUSTOM unit without a 2-character description, raises ValueError |
| Fiscal.OnlyZeroPriceRefused | stoqdrivers/printers/fiscal.py:127-128 | a zero price raises InvalidValue while a negative price is let through |
| Fiscal.NegativeAdjustmentRefused | stoqdrivers/printers/fiscal.py:130-133 | a negative surcharge or discount raises ValueError |
| Fiscal.TotalizeCheck | stoqdrivers/printers/fiscal.py:145-148 | discount with surcharge is a TypeError, a surcharge with TaxType.NONE a ValueError, and nothing else is refused |
| Fiscal.CloseCheck | stoqdrivers/printers/fiscal.py:190-201 | close reaches the driver exactly when the coupon is totalized, the payments total is non-zero and covers the totalized value; every refusal is CloseCouponError |
| Fiscal.ReadMemoryCheck | stoqdrivers/printers/fiscal.py:240-241 | the memory reading goes ahead exactly when start <= end <= today, and AssertionError is raised otherwise |
| Fiscal.ReductionsCheck | stoqdrivers/printers/fiscal.py:256-257 | the reading by reductions goes ahead exactly when 0 < start <= end |
| Fiscal.FiscalPrinter.constructor | stoqdrivers/printers/fiscal.py:53-67 | the coupon fields start untotalized at zero, and a failing driver setup only clears setup_complete |
| Fiscal.FiscalPrinter.AddItem | stoqdrivers/printers/fiscal.py:104-138 | a refused item never reaches the driver; an accepted one is passed on and the driver's id or exception returned; the coupon fields are untouched |
| Fiscal.FiscalPrinter.Totalize | stoqdrivers/printers/fiscal.py:140-153 | refused arguments never reach the driver; a driver reply marks the coupon totalized with the value returned, also on a coupon already totalized; a driver exception changes nothing |
| Fiscal.FiscalPrinter.AddPayment | stoqdrivers/printers/fiscal.py:155-166 | before totalize, PaymentAdditionError with no driver call and the payments total unchanged; otherwise the value is added only once the driver returns |
| Fiscal.FiscalPrinter.Cancel | stoqdrivers/printers/fiscal.py:168-174 | the driver is called first, and only when it returns are the three fields reset |
| Fiscal.FiscalPrinter.CancelItem | stoqdrivers/printers/fiscal.py:181-184 | the id is handed to the driver unchecked and the coupon fields are untouched |
| Fiscal.FiscalPrinter.Close | stoqdrivers/printers/fiscal.py:186-207 | the three CloseCouponError cases leave everything as it was and make no driver call; a driver reply resets the three fields |
| Fiscal.FiscalPrinter.TillReadMemory | stoqdrivers/printers/fiscal.py:239-245 | AssertionError without a driver call unless start <= end <= today |
| Fiscal.FiscalPrinter.TillReadMemoryToSerial | stoqdrivers/printers/fiscal.py:247-253 | the same date assertion before the serial-output reading |
| Fiscal.FiscalPrinter.TillReadMemoryByReductions | stoqdrivers/printers/fiscal.py:255-261 | AssertionError unless end >= start > 0; the driver's value is dropped and None returned |
| Fiscal.SaleScenario | stoqdrivers/printers/fiscal.py:104-207 | an item, two totalize calls (the second also accepted), a late item refused with AlreadyTotalized, a covering payment and a successful close |
| Fiscal.CloseScenario | tests/test_coupon.py:185-207 | close fails before totalize, without payments and with a short payment, and succeeds once the payments cover the total |
| VirtualPrinter.RemoveId | stoqdrivers/printers/virtual/Simple.py:381 | popping an id leaves exactly the other items, still in increasing id order |
| VirtualPrinter.RemoveOne | stoqdrivers/printers/virtual/Simple.py:375-381 | popping a present id removes exactly one item |
| Common.RoundHalfEven | stoqdrivers/printers/virtual/Simple.py:408-409 | the rounding is to the nearest whole number, at most one half away |
| VirtualPrinter.QuantizeCents | stoqdrivers/printers/virtual/Simple.py:408-409 | quantize('.01') gives a whole number of cents at most half a cent away |
| VirtualPrinter.QuantizeWholeCents | stoqdrivers/printers/virtual/Simple.py:408-409 | an amount already in whole cents is left unchanged |
| VirtualPrinter.QuantizeNegate | stoqdrivers/printers/virtual/Simple.py:408 | half-even rounding is symmetric, so quantizing the negated discount is minus the quantized discount |
| VirtualPrinter.PlainTotal | stoqdrivers/printers/virtual/Simple.py:402-409 | without discount or surcharge the total is the sum of quantity times price |
| VirtualPrinter.ItemsTotalAppend | stoqdrivers/printers/virtual/Simple.py:402-403 | a new item adds its quantity times price to the sum |
| VirtualPrinter.SingleItemTotal | stoqdrivers/printers/virtual/Simple.py:402-403 | one item totals its quantity times price |
| VirtualPrinter.RetryKeepsFailedTotal | stoqdrivers/printers/virtual/Simple.py:402-413 | a totalize that fails its positive test leaves its sum in totalized_value, and a retry adds to it: 10.00 with a 200% discount fails at -10.00, the retry without discount fails at 0.00, while a fresh totalize gives 10.00 |
| VirtualPrinter.AdjustedByWholeCents | stoqdrivers/printers/virtual/Simple.py:405-409 | adjustments that are whole cents are applied exactly |
| VirtualPrinter.SurchargeIsPercentage | stoqdrivers/printers/virtual/Simple.py:393-409 | the surcharge is a percentage: a 10.00 item with surcharge 1 totals 10.10 |
| VirtualPrinter.Simple.constructor | stoqdrivers/printers/virtual/Simple.py:201-222 | a fresh printer has a reset coupon and the till flag read back from the saved state, false when there is none |
| VirtualPrinter.Simple.ResetFlags | stoqdrivers/printers/virtual/Simple.py:284-292 | every coupon field goes back to its initial value and the invariant holds |
| VirtualPrinter.Simple.SetOff | stoqdrivers/printers/virtual/Simple.py:276-278 | only the off switch changes |
| VirtualPrinter.Simple.CouponOpen | stoqdrivers/printers/virtual/Simple.py:346-353 | PrinterOfflineError while off, CouponOpenError with a coupon open and nothing changed, otherwise the coupon is opened |
| VirtualPrinter.Simple.CouponAddItem | stoqdrivers/printers/virtual/Simple.py:355-370 | on an open untotalized coupon the id returned is the counter plus one, not used by any item, and the item is stored under it; otherwise the offline, open or ItemAdditionError refusal with nothing changed |
| VirtualPrinter.Simple.CouponCancelItem | stoqdrivers/printers/virtual/Simple.py:372-382 | an unknown id or a totalized coupon is a CancelItemError; otherwise exactly that item is removed and the id counter is kept |
| VirtualPrinter.Simple.CouponCancel | stoqdrivers/printers/virtual/Simple.py:384-389 | unless off, every coupon field is reset whatever state the coupon was in |
| VirtualPrinter.Simple.CouponTotalize | stoqdrivers/printers/virtual/Simple.py:391-418 | refused without an item ever added or when already totalized; otherwise the field becomes its prior value plus the item totals and the quantized adjustments, and the coupon is totalized exactly when that is positive |
| VirtualPrinter.Simple.CouponAddPayment | stoqdrivers/printers/virtual/Simple.py:420-430 | only on a totalized coupon: the value is counted, has_payments set and totalized minus paid returned; an unknown method raises KeyError after the value was counted |
| VirtualPrinter.Simple.CouponClose | stoqdrivers/printers/virtual/Simple.py:432-452 | CloseCouponError unless the open coupon is totalized, has a payment and is paid in full; on success every coupon field is reset and 0 returned |
| VirtualPrinter.Simple.Summarize | stoqdrivers/printers/virtual/Simple.py:476-484 | a reading X clears the till flag unless the printer is off |
| VirtualPrinter.Simple.CloseTill | stoqdrivers/printers/virtual/Simple.py:486-494 | a second reduction Z without a reading X raises DriverError; otherwise the till is marked closed |
| VirtualPrinter.CancelItemScenario | tests/test_coupon.py:133-150 | an unknown id and a repeated cancel fail, the next item gets id 2, and the coupon totalizes to 10.00, is paid and closes |
| VirtualPrinter.TillScenario | stoqdrivers/printers/virtual/Simple.py:476-494 | two reductions Z in a row fail, and a reading X in between lets the second through |
| VirtualPrinter.OfflineScenario | stoqdrivers/printers/virtual/Simple.py:280-282 | while off, open, close and reduction Z all raise PrinterOfflineError |
| FiscNet.MoneyParts | stoqdrivers/printers/fiscnet/FiscNetECF.py:230-231 | a Decimal argument is written as '-' for negative values, the whole part of its thousandths, ',' and exactly three digits of the remaining thousandths |
| FiscNet.DateArgFields | stoqdrivers/printers/fiscnet/FiscNetECF.py:241-242 | a date argument is the ten characters '#dd/mm/yy#' whose three fields read back as the day, the month and the year modulo 100 |
| FiscNet.StrLtAsymmetric | stoqdrivers/printers/fiscnet/FiscNetECF.py:229 | the name order of sorted() never puts two names each before the other |
| FiscNet.StrLtTotal | stoqdrivers/printers/fiscnet/FiscNetECF.py:229 | two different names are always ordered one way or the other |
| FiscNet.Insert | stoqdrivers/printers/fiscnet/FiscNetECF.py:229 | inserting keeps every argument, adds exactly the new one and puts it or the old head first |
| FiscNet.InsertSorted | stoqdrivers/printers/fiscnet/FiscNetECF.py:229 | inserting into a name-sorted list keeps it sorted |
| FiscNet.SortParams | stoqdrivers/printers/fiscnet/FiscNetECF.py:229 | sorting keeps exactly the arguments given |
| FiscNet.SortParamsSorted | stoqdrivers/printers/fiscnet/FiscNetECF.py:229 | the arguments are written sorted by name, none lost or added |
| FiscNet.StrictlySorted | stoqdrivers/printers/fiscnet/FiscNetECF.py:229 | keyword names being distinct, the written names strictly increase |
| FiscNet.ParamTexts | stoqdrivers/printers/fiscnet/FiscNetECF.py:244 | one name=value text per argument, in order |
| FiscNet.SingleParamLine | stoqdrivers/printers/fiscnet/FiscNetECF.py:246-248 | a command with one argument is the id, ';', the command, ';', that argument's name=value and ';' |
| FiscNet.QueryStatusFrame | stoqdrivers/printers/fiscnet/FiscNetECF.py:674-675 | the LeInteiro command for Indicadores, framed in braces, is exactly the text query_status returns |
| FiscNet.SpaceEnd | stoqdrivers/printers/fiscnet/FiscNetECF.py:119-121 | the leading whitespace run the regexes skip ends at the first non-space character |
| FiscNet.TokenEnd | stoqdrivers/printers/fiscnet/FiscNetECF.py:119 | the token is the longest run of characters other than '=', ';' and whitespace |
| FiscNet.BareEnd | stoqdrivers/printers/fiscnet/FiscNetECF.py:121 | an unquoted value is the longest run of characters other than ';' and whitespace |
| FiscNet.QuotedEnd | stoqdrivers/printers/fiscnet/FiscNetECF.py:120 | a quoted value, when it closes, ends at a '"' found after the opening quote |
| FiscNet.Unescape | stoqdrivers/printers/fiscnet/FiscNetECF.py:210 | removing the backslashes of the escapes never lengthens the value |
| FiscNet.NextEntry | stoqdrivers/printers/fiscnet/FiscNetECF.py:202-219 | each step consumes a non-empty name and strictly shortens the text |
| FiscNet.ParseReturnValue | stoqdrivers/printers/fiscnet/FiscNetECF.py:193-224 | the loop builds exactly the dictionary the entry-by-entry reading gives, or raises AssertionError where it does |
| FiscNet.UnescapeEscape | stoqdrivers/printers/fiscnet/FiscNetECF.py:120-122 | a value with its quotes and backslashes escaped is unescaped back to itself |
| FiscNet.QuotedEndEscaped | stoqdrivers/printers/fiscnet/FiscNetECF.py:120 | an escaped value is scanned up to the closing quote after it and no further |
| FiscNet.NextQuoted | stoqdrivers/printers/fiscnet/FiscNetECF.py:202-210 | name="escaped value" after any spaces reads back as that name bound to the value, leaving what follows |
| FiscNet.NextBare | stoqdrivers/printers/fiscnet/FiscNetECF.py:212-216 | name=value with an unquoted value reads back as that name bound to that value |
| FiscNet.NextLone | stoqdrivers/printers/fiscnet/FiscNetECF.py:217-219 | a name with no '=' after it is bound to None |
| FiscNet.NoLeadingName | stoqdrivers/printers/fiscnet/FiscNetECF.py:221-222 | text that does not start, after spaces, with a name character raises AssertionError |
| FiscNet.ParseQuotedReply | stoqdrivers/printers/fiscnet/FiscNetECF.py:193-224 | values written as name="escaped value" and separated by spaces parse back to exactly those bindings, a later one replacing an earlier one |
| FiscNet.CollectFinds | stoqdrivers/printers/fiscnet/FiscNetECF.py:220 | each pair is found in the dictionary unless a later pair reuses its name |
| FiscNet.CollectKeeps | stoqdrivers/printers/fiscnet/FiscNetECF.py:220 | a binding no later pair names is kept |
| FiscNet.StrParamReadBack | stoqdrivers/printers/fiscnet/FiscNetECF.py:234-244 | a str argument written by _send_command, without quote or backslash, is read back by the reply parser as that name bound to that value |
| FiscNet.MalformedReply | stoqdrivers/printers/fiscnet/FiscNetECF.py:249-257 | an empty reply raises IndexError, and one not opening with '{' or without exactly three ';' raises AssertionError |
| FiscNet.ReplyParts | stoqdrivers/printers/fiscnet/FiscNetECF.py:255-269 | for a reply {id;code;values;tail}: values that do not parse raise first; code 0 gives the dictionary; any other code raises its errors_dict class, or DriverError when unmapped, carrying the code, or KeyError when there is no Circunstancia |
| FiscNet.ParseIntsEach | stoqdrivers/printers/fiscnet/FiscNetECF.py:311 | the conversion succeeds exactly when every field is an int, and then yields each field's value in order |
| FiscNet.ConvertRegister | stoqdrivers/printers/fiscnet/FiscNetECF.py:298-317 | every converted value has the requested register type |
| FiscNet.RegisterOutcome | stoqdrivers/printers/fiscnet/FiscNetECF.py:271-319 | a register read gives a value of the requested type, or the error of the command, the missing return name or the conversion |
| FiscNet.IntRegisterReadBack | stoqdrivers/printers/fiscnet/FiscNetECF.py:298-317 | an integer as the printer writes it reads back as itself, and as a bool as whether it is non-zero |
| FiscNet.StrRegisterReadBack | stoqdrivers/printers/fiscnet/FiscNetECF.py:313-315 | a quoted text whose ends are not quotes reads back without its quotes |
| FiscNet.DateRegisterReadBack | stoqdrivers/printers/fiscnet/FiscNetECF.py:304-312 | a valid date written #dd/mm/yyyy# reads back as that same date, never as the unset-date marker |
| FiscNet.MoneyReadBack | stoqdrivers/printers/fiscnet/FiscNetECF.py:230-303 | a Decimal as _send_command writes it reads back through the Decimal branch as the value rounded to thousandths |
| FiscNet.GroupedMoneyReadBack | stoqdrivers/printers/fiscnet/FiscNetECF.py:300-303 | with dots as thousands separators, a.b,c reads back as the number whose digits are a then b, with c as decimals |
| Decimals.ParseDecimalPlain | stoqdrivers/printers/fiscnet/FiscNetECF.py:303 | Decimal() of digits '.' digits is the number they write |
| FiscNet.ParseMoneyText | stoqdrivers/printers/fiscnet/FiscNetECF.py:303 | Decimal() of an optional '-', digits, '.' and three digits is the signed number they write |
| Decimals.UnsignedDecimalOf | stoqdrivers/printers/fiscnet/FiscNetECF.py:303 | digits '.' digits after the sign are the number they write |
| FiscNet.DocumentOpenIsFlag | stoqdrivers/printers/fiscnet/FiscNetECF.py:527 | the document-open test is bit 10 (1024) of the status word, as status & FLAG_DOCUMENTO_ABERTO |
| FiscNet.DefaultUnits | stoqdrivers/printers/fiscnet/FiscNetECF.py:546-549 | every unit other than CUSTOM has a two-character device code in FiscNetConstants |
| FiscNet.OpenRefusedWhileOpen | stoqdrivers/printers/fiscnet/FiscNetECF.py:525-528 | coupon_open with a document open raises CouponOpenError and sends nothing after the status query |
| FiscNet.AddItemRefusedWhenClosed | stoqdrivers/printers/fiscnet/FiscNetECF.py:538-544 | coupon_add_item with no document open raises CouponNotOpenError and sends nothing after the status query |
| FiscNet.RemainderClamped | stoqdrivers/printers/fiscnet/FiscNetECF.py:330-335 | the remainder is the total minus what was paid, and zero instead of a negative amount |
| FiscNet.FiscNetECF.constructor | stoqdrivers/printers/fiscnet/FiscNetECF.py:166-188 | the driver frames with '{' and '}', reads replies up to '}', uses command id 0, takes FiscNetConstants unless given constants, and starts with no customer |
| FiscNet.FiscNetECF.SendCommand | stoqdrivers/printers/fiscnet/FiscNetECF.py:226-269 | the arguments sorted and rendered are written in one frame with id 0; the result and what is written and consumed are exactly those of the reply specification |
| FiscNet.FiscNetECF.ReadRegister | stoqdrivers/printers/fiscnet/FiscNetECF.py:271-319 | the register command is sent and its reply converted exactly as the register specification says |
| FiscNet.FiscNetECF.CouponIdentifyCustomer | stoqdrivers/printers/fiscnet/FiscNetECF.py:514-517 | the customer name, address and document are kept for the next coupon_open |
| FiscNet.FiscNetECF.HasOpenCoupon | stoqdrivers/printers/fiscnet/FiscNetECF.py:522-523 | the DocumentoAberto indicator, read as a bool register |
| FiscNet.FiscNetECF.CouponOpen | stoqdrivers/printers/fiscnet/FiscNetECF.py:525-535 | the status query, then CouponOpenError while a document is open, else AbreCupomFiscal with the customer fields cut to 80, 29 and 30 characters |
| FiscNet.FiscNetECF.CouponAddItem | stoqdrivers/printers/fiscnet/FiscNetECF.py:538-565 | the status query, CouponNotOpenError unless a document is open, the unit code, int(taxcode), VendeItem, AcresceItemFiscal when there is a discount, then the last item id |
| FiscNet.FiscNetECF.CouponRemainderValue | stoqdrivers/printers/fiscnet/FiscNetECF.py:330-335 | the paid and total registers are read in that order and the clamped difference returned |
| FS345.IsBitSet | stoqdrivers/printers/daruma/FS345.py:131-133 | the character is read as one hex digit; ValueError exactly when it is not one |
| FS345.HexDigitBits | stoqdrivers/printers/daruma/FS345.py:131-133 | bits 0-3 are the binary digits of the hex digit's value, and every higher bit tests false |
| FS345.StatusBit | stoqdrivers/printers/daruma/FS345.py:214-215 | a bit of a status character can be read exactly when the status has a hex digit at that index; past the end it is an IndexError |
| FS345.ReplySplits | stoqdrivers/printers/daruma/FS345.py:189-207 | a reply is the characters heard before the first CR; the CR is consumed and excluded, and what follows is left unread |
| FS345.ReplyOfLine | stoqdrivers/printers/daruma/FS345.py:189-207 | a byte line ending in CR is read back as exactly that line, leaving the rest of the script |
| FS345.SilencesAdd | stoqdrivers/printers/daruma/FS345.py:194-202 | each empty read adds one to the timeout counter |
| FS345.PausesAccumulate | stoqdrivers/printers/daruma/FS345.py:189-207 | the counter is never reset: three empty reads before a character and three after it raise DriverError, where SerialBase.readline returns the character |
| FS345.FS345.ReadReply | stoqdrivers/printers/daruma/FS345.py:189-207 | the loop returns the reply the reading specification gives, consumes exactly the script it reads and writes nothing |
| FS345.ErrorFor | stoqdrivers/printers/daruma/FS345.py:267-298 | code 21 alone raises nothing; 23 raises PendingReduceZ; every other exception carries its code, and codes other than 10, 11, 12 and 15 are DriverErrors |
| FS345.ErrorReplyParsed | stoqdrivers/printers/daruma/FS345.py:268 | the number after ':E' is the code handle_error maps |
| FS345.ExchangeFrom | stoqdrivers/printers/daruma/FS345.py:175-176 | a frame with a character above 255 raises ValueError with nothing sent or read; a reply read means the whole frame was written |
| FS345.PlainReply | stoqdrivers/printers/daruma/FS345.py:172-187 | a reply that is not an error is returned without its first character after one frame ESC + chr(command) + extra |
| FS345.ErrorReplyRaises | stoqdrivers/printers/daruma/FS345.py:172-187 | an error reply other than 42 raises its mapped exception after one frame; error 21 raises nothing and returns the reply minus its first character |
| FS345.SendAfterExchange | stoqdrivers/printers/daruma/FS345.py:172-187 | one round of the loop: an error other than 42 ends it, and error 42 sends CMD_GET_X then resends the same frame |
| FS345.ReadXThenResend | stoqdrivers/printers/daruma/FS345.py:177-185 | k error-42 replies cause k CMD_GET_X commands and k resends before the plain reply is returned, for any k |
| FS345.FS345.Exchange | stoqdrivers/printers/daruma/FS345.py:175-176 | writes ESC + raw and reads one reply, as the exchange specification gives |
| FS345.FS345.SendCommand | stoqdrivers/printers/daruma/FS345.py:172-187 | the resend loop, recursive on error 42, returns what the send specification gives and writes exactly its frames |
| FS345.StatusOfLine | stoqdrivers/printers/daruma/FS345.py:210-212 | CMD_STATUS is written and the status line returned as read |
| FS345.FS345.GetStatus | stoqdrivers/printers/daruma/FS345.py:210-212 | writes CMD_STATUS and reads the reply, as the status specification gives |
| FS345.StatusFault | stoqdrivers/printers/daruma/FS345.py:236-249 | no exception exactly when the status is healthy; a status too short raises IndexError, and the mechanical bit raises HardwareFailure |
| FS345.HealthyPrinterDigit | stoqdrivers/printers/daruma/FS345.py:236-241 | in a healthy status the printer digit is 2 or 10: authenticated, with paper and no mechanical failure |
| FS345.StatusAccepted | stoqdrivers/printers/daruma/FS345.py:217-252 | for a status starting with ':' the check sends CMD_STATUS twice and succeeds exactly when that status is healthy and the second one shows no pending reduction; it returns the first status |
| FS345.FS345.CheckStatus | stoqdrivers/printers/daruma/FS345.py:217-252 | the status check as its specification gives, with has_pending_reduce fetching its own status |
| FS345.FS345.HasPendingReduce | stoqdrivers/printers/daruma/FS345.py:254-257 | a given status is read at bit 1 of character 2 with nothing sent; without one, a status is fetched first |
| FS345.FS345.VerifyCouponOpen | stoqdrivers/printers/daruma/FS345.py:353-355 | reads the status and raises CouponNotOpenError unless bit 2 of character 4 is set |
| FS345.FS345.Ready | stoqdrivers/printers/daruma/FS345.py:464-465 | the status check, then the open-coupon check |
| FS345.ItemPayloadFields | stoqdrivers/printers/daruma/FS345.py:448-456 | the item payload is the 2-character tax code, the code padded to 13, the flag, 4 digits of cents, 10 of price times 1000, 8 of quantity times 1000, the unit, at most 174 characters of description and 0xFF |
| FS345.ItemIdRead | stoqdrivers/printers/daruma/FS345.py:458 | the item id is the number in reply characters 1-3 |
| FS345.UnknownUnitSendsNothing | stoqdrivers/printers/daruma/FS345.py:445-448 | a unit missing from the constants raises ValueError before anything is sent |
| FS345.FS345.CouponAddItem | stoqdrivers/printers/daruma/FS345.py:434-458 | flag and amount chosen from surcharge or discount, the unit looked up, the payload sent and the id read back, as the add-item specification gives |
| FS345.TotalizeMode | stoqdrivers/printers/daruma/FS345.py:484-495 | a surcharge needs TaxType.ICMS and uses mode 3, otherwise ValueError; a discount or nothing uses mode 1 |
| FS345.SurchargeNeedsIcms | stoqdrivers/printers/daruma/FS345.py:480-489 | a surcharge without ICMS raises after the status checks and sends nothing more |
| FS345.TotalizeDataFields | stoqdrivers/printers/daruma/FS345.py:497 | the totalize payload is the mode digit and 12 digits of cents |
| FS345.Hundredths | stoqdrivers/printers/daruma/FS345.py:499 | the reply as a Decimal divided by 100, InvalidOperation when it is not a number |
| FS345.HundredthsOfDigits | stoqdrivers/printers/daruma/FS345.py:499 | a reply of digits gives its value divided by 100 |
| FS345.FS345.CouponTotalize | stoqdrivers/printers/daruma/FS345.py:480-499 | the checks, the mode and the payload, then the total read back, as the totalize specification gives |
| FS345.PaymentDataFields | stoqdrivers/printers/daruma/FS345.py:368-372 | the payment payload is the method character, 12 digits of cents, at most 48 characters of description and 0xFF |
| FS345.PaymentAmount | stoqdrivers/printers/daruma/FS345.py:373-377 | an empty reply raises IndexError; a reply starting with 'N' loses its first 8 characters before it is read as hundredths |
| FS345.PaymentAmountAfterN | stoqdrivers/printers/daruma/FS345.py:375-377 | 'N', seven characters and digits give the digits' value divided by 100 |
| FS345.FS345.CouponAddPayment | stoqdrivers/printers/daruma/FS345.py:463-466 | the checks, then _add_payment, as the payment specification gives |
| FS345.TaxRecordOf | stoqdrivers/printers/daruma/FS345.py:673-685 | a register letter outside A-P and a-p raises AssertionError; a constant read is CUSTOM exactly for upper case, named 'T' + the lower-case letter |
| FS345.TaxRecordRead | stoqdrivers/printers/daruma/FS345.py:673-685 | an upper-case register with four digits gives a CUSTOM rate of the digits divided by 100 |
| FS345.TaxRecordParsed | stoqdrivers/printers/daruma/FS345.py:673-685 | a register's rate is its value without dots, as a Decimal, divided by 100 |
| FS345.TaxRecordUnparsed | stoqdrivers/printers/daruma/FS345.py:683-685 | a value that is not a number raises InvalidOperation |
| FS345.UnusedRegisterSkipped | stoqdrivers/printers/daruma/FS345.py:681-682 | a '////' record adds no constant |
| FS345.TaxRecordsShape | stoqdrivers/printers/daruma/FS345.py:672-685 | n records give at most n constants, each a register's |
| FS345.TaxRecordsErrorSticks | stoqdrivers/printers/daruma/FS345.py:672-685 | the first failing record ends the loop with its exception |
| FS345.FS345.ReadTaxRecord | stoqdrivers/printers/daruma/FS345.py:673-685 | one five-character record read as its specification gives, IndexError past the end of the reply |
| FS345.FS345.AppendTaxRecord | stoqdrivers/printers/daruma/FS345.py:673-685 | one round of the loop appends the record's constant, skips an unused register, or stops with the record's exception |
| FS345.FS345.ReadTaxRecords | stoqdrivers/printers/daruma/FS345.py:671-685 | the loop gives what the specification of the first count records gives |
| FS345.TaxConstantsFrom | stoqdrivers/printers/daruma/FS345.py:670-696 | a successful reading ends with the three fixed constants Fb, Ib and Nb |
| FS345.FS345.GetTaxConstants | stoqdrivers/printers/daruma/FS345.py:670-696 | CMD_GET_TAX_CODES, then fourteen records, then the fixed constants, as the specification gives |
| FS345.Registers | stoqdrivers/printers/daruma/FS345.py:347-350 | the reply must start with ESC and chr(CMD_GET_REGISTRIES), else AssertionError; the registers are what follows |
| FS345.FS345.GetRegisters | stoqdrivers/printers/daruma/FS345.py:347-350 | sends CMD_GET_REGISTRIES and checks the header |
| FS345.RegisterNumber | stoqdrivers/printers/daruma/FS345.py:658-668 | a slice of the registers is an int exactly when int() accepts it, else ValueError |
| FS345.RegisterFieldRead | stoqdrivers/printers/daruma/FS345.py:658-668 | a zero-padded field reads back as its number |
| FS345.FS345.GetRegister | stoqdrivers/printers/daruma/FS345.py:658-668 | the registers read, then one slice converted |
| FS345.FS345.GetCoo | stoqdrivers/printers/daruma/FS345.py:658-660 | registers[7:12] |
| FS345.FS345.GetGnf | stoqdrivers/printers/daruma/FS345.py:662-664 | registers[13:18] |
| FS345.FS345.GetCrz | stoqdrivers/printers/daruma/FS345.py:666-668 | registers[38:42] |
| FS345.FS345.GetCouponNumber | stoqdrivers/printers/daruma/FS345.py:362-366 | int(reply[8:14]) of CMD_GET_TOTALIZERS, with no header check |
| FS345.CooIsCouponNumberTail | stoqdrivers/printers/daruma/FS345.py:347-366 | on the same reply, the COO is the coupon number modulo 100000, because the header shifts the slice by two |
| FS2100.BusyCodes | stoqdrivers/printers/daruma/FS2100.py:120-121 | an FS345 error counts as busy, and is retried, exactly when its code is 35 or 99 |
| FS2100.BasePlain | stoqdrivers/printers/daruma/FS345.py:172-187 | one attempt answered with a plain reply gives that reply without its first character, after exactly one frame |
| FS2100.BaseError | stoqdrivers/printers/daruma/FS345.py:172-187 | one attempt answered with an error other than 21 and 42 raises FS345's exception for it, after exactly one frame |
| FS2100.PendingXThenResend | stoqdrivers/printers/daruma/FS345.py:177-185 | error 42 on an FS2100 sends CMD_GET_X through the FS2100's own send_command, then the same frame again, whose answer is the value |
| FS2100.FS2100.BaseSendCommand | stoqdrivers/printers/daruma/FS345.py:172-187 | FS345's loop run on an FS2100 returns what its specification gives and writes exactly its frames |
| FS2100.OtherErrorPropagates | stoqdrivers/printers/daruma/FS2100.py:117-127 | an error other than 35 and 99 ends send_command on any attempt, with one frame written and no reply drained |
| FS2100.DrainLines | stoqdrivers/printers/daruma/FS2100.py:131-133 | dropping k replies consumes exactly k lines, whatever they say |
| FS2100.AnsweredOnAttempt | stoqdrivers/printers/daruma/FS2100.py:117-135 | busy on attempts 0 to t - 1 and answered on attempt t: t + 1 frames are written, t further replies are dropped, and the answer's value is returned |
| FS2100.BusyEveryAttempt | stoqdrivers/printers/daruma/FS2100.py:117-135 | busy on all ten attempts: ten frames are written, nine replies dropped, and the call ends in UnboundLocalError because retval was never bound |
| FS2100.FS2100.SendCommand | stoqdrivers/printers/daruma/FS2100.py:117-135 | the retry loop and the drain loop return what the retry specification gives and write exactly its frames |
| FS2100.ChecksumParity | stoqdrivers/printers/daruma/FS2100.py:160 | bit k of the XOR checksum is set exactly when an odd number of the data's bytes have bit k set |
| FS2100.ChecksumIsByte | stoqdrivers/printers/daruma/FS2100.py:160-161 | the checksum of a byte string is below 256, so chr() accepts it |
| FS2100.NewFrame | stoqdrivers/printers/daruma/FS2100.py:155-161 | the frame is the data unchanged followed by one more byte |
| FS2100.FrameChecks | stoqdrivers/printers/daruma/FS2100.py:155-161 | the XOR of every byte of a frame, the checksum included, is zero |
| FS2100.ResponseError | stoqdrivers/printers/daruma/FS2100.py:137-147 | reply chars 1-2 that int() refuses raise ValueError; 0 passes; any other number raises FS345's exception for it, and the reply passes exactly when the number is 0 or 21 |
| FS2100.CompatibleErrorRead | stoqdrivers/printers/daruma/FS2100.py:139-147 | a two-digit compatible error in the reply is judged by its value |
| FS2100.FS2100.CheckResponse | stoqdrivers/printers/daruma/FS2100.py:137-147 | succeeds exactly when the reply passes, else raises the reply's exception |
| FS2100.NewCommandFrom | stoqdrivers/printers/daruma/FS2100.py:149-170 | a frame that is not a byte string raises ValueError with nothing sent or read; otherwise exactly the checksummed frame is written |
| FS2100.NewCommandAnswered | stoqdrivers/printers/daruma/FS2100.py:163-170 | a line whose error number is 0 (or any line when errors are ignored) gives the line without its first character, and the checksum byte after it is consumed unchecked |
| FS2100.NewCommandRefused | stoqdrivers/printers/daruma/FS2100.py:163-170 | a line with an error number other than 0 and 21 raises FS345's exception for it, after the checksum byte is consumed |
| FS2100.FS2100.SendNewCommand | stoqdrivers/printers/daruma/FS2100.py:149-170 | writes the checksummed frame, reads the line and the checksum byte and judges the reply, as the extended-command specification gives |
| FS2100.FS2100.GetCompatibilityMode | stoqdrivers/printers/daruma/FS2100.py:172-173 | extended command 200 with prefix 'R' and extra '138' |
| FS2100.UnitField | stoqdrivers/printers/daruma/FS2100.py:75-78 | a custom unit gives two characters taken from its description; any other unit comes from the constants, and the lookup fails exactly when the constants lack it |
| FS2100.ItemPayloadFields | stoqdrivers/printers/daruma/FS2100.py:82-96 | the item payload holds, at fixed positions, the tax code, quantity in thousandths, price in cents, the kind digit, the adjustment, zero padding, the code, the unit, the description cut to 233 characters and 0xFF; each amount that fits its width reads back as itself |
| FS2100.ItemAdjustment | stoqdrivers/printers/daruma/FS2100.py:60-95 | the kind digit is 2 exactly when there is a surcharge and 0 otherwise; the adjustment field reads back as 100 times the whole part of the surcharge, or else of the discount |
| FS2100.ItemId | stoqdrivers/printers/daruma/FS2100.py:99 | the id is int() of reply characters 3-5, ValueError when they are not a number |
| FS2100.ItemIdRead | stoqdrivers/printers/daruma/FS2100.py:99 | three digits at reply characters 3-5 give their value as the id |
| FS2100.UnknownUnitSendsNothing | stoqdrivers/printers/daruma/FS2100.py:75-76 | a unit missing from the constants raises ValueError before anything is written |
| FS2100.FS2100.CouponAddItem | stoqdrivers/printers/daruma/FS2100.py:56-99 | the unit, the payload and the extended command with prefix 'F', then the id read back, as the add-item specification gives |
| FBII.EscapeIsEscaped | stoqdrivers/printers/epson/FBII.py:60-63 | escape() puts ESC before every special byte and leaves every other character alone, one character at a time, although it runs as eight replace passes |
| FBII.UnescapeEscape | stoqdrivers/printers/epson/FBII.py:60-68 | unescape(escape(s)) == s for every string |
| FBII.UnescapeFromNoEsc | stoqdrivers/printers/epson/FBII.py:65-68 | unescape() leaves a string without ESC unchanged |
| FBII.ParseHexDigits | stoqdrivers/printers/epson/FBII.py:174 | int(s, 16) of a non-empty run of hexadecimal digits is their value |
| FBII.Chr | stoqdrivers/printers/epson/FBII.py:170 | chr(n) succeeds exactly for 0..255, with code n, and raises ValueError otherwise |
| FBII.HexChar | stoqdrivers/printers/epson/FBII.py:174-175 | chr(int(s, 16)) fails only with ValueError |
| FBII.RawCode | stoqdrivers/printers/epson/FBII.py:174-175 | a converted code is two characters; a failed conversion is ValueError |
| FBII.TwoHexDigits | stoqdrivers/printers/epson/FBII.py:174-175 | two hexadecimal digits convert to the byte 16 * first + second |
| FBII.RawCodeOfHex | stoqdrivers/printers/epson/FBII.py:174-175 | a four-digit hexadecimal code converts to the two bytes its digit pairs spell |
| FBII.PackageFrom | stoqdrivers/printers/epson/FBII.py:172-187 | the id counter moves by one or not at all, and a built package has an id in 0..255 one above the last |
| FBII.PackageLayout | stoqdrivers/printers/epson/FBII.py:172-187 | for four-digit codes: the id is the last plus one, the package exists exactly while that id is below 256 (else ValueError), and it is STX, id, escaped command, FLD, escaped extension, FLD and each escaped argument, ETX, then its checksum |
| FBII.BadCodeKeepsId | stoqdrivers/printers/epson/FBII.py:172-175 | a command whose first pair is not hexadecimal raises ValueError and leaves the id where it was |
| FBII.PackageFromBadCode | stoqdrivers/printers/epson/FBII.py:172-175 | any code that does not convert raises ValueError before the id moves |
| FBII.IdNotSpecial | stoqdrivers/printers/epson/FBII.py:168-184 | the ids 139..255 that _get_package puts unescaped in the frame are never special bytes |
| FBII.IdsRunOut | stoqdrivers/printers/epson/FBII.py:160-187 | after n packages from the initial counter 138 the counter is 138 + n, and the next package is built exactly while n < 117 |
| FBII.FormatHexRoundTrip | stoqdrivers/printers/epson/FBII.py:84-85 | any number printed as zero-padded upper-case hexadecimal reads back as itself |
| FBII.ChecksumField | stoqdrivers/printers/epson/FBII.py:184-187 | the checksum field reads back as the byte sum, has at least four digits, and has exactly four only while the sum is below 0x10000 |
| FBII.Unpack16 | stoqdrivers/printers/epson/FBII.py:101-103 | struct.unpack('>H') succeeds exactly on two bytes and raises struct.error otherwise |
| FBII.StatusHex | stoqdrivers/printers/epson/FBII.py:109-110 | the reply status is formatted only when two characters were left, else IndexError |
| FBII.HexZero | stoqdrivers/printers/epson/FBII.py:110 | a byte printed as two hexadecimal digits reads "00" exactly when it is zero |
| FBII.StatusZero | stoqdrivers/printers/epson/FBII.py:110 | the reply status is '0000' exactly when both status bytes are zero |
| FBII.CheckError | stoqdrivers/printers/epson/FBII.py:125-129 | check_error() passes exactly for a final reply with status '0000', and raises DriverError for any other status |
| FBII.FrameNeverIntermediate | stoqdrivers/printers/epson/FBII.py:91-94 | the popped frame id is never '0x80', so the frame is never taken for an intermediate reply |
| FBII.NeverIntermediate | stoqdrivers/printers/epson/FBII.py:79-94 | no reply is ever parsed as intermediate |
| FBII.ChecksumMismatch | stoqdrivers/printers/epson/FBII.py:80-85 | a reply whose last four characters are not the checksum of the rest raises AssertionError, whatever the command id |
| FBII.LongSumNeverPasses | stoqdrivers/printers/epson/FBII.py:84-85 | a reply body whose byte sum reaches 0x10000 is always refused, since its checksum has five digits and only four are compared |
| FBII.TailOfPlain | stoqdrivers/printers/epson/FBII.py:109-122 | the reply status, separator and reserved byte come off, and the fields are the split of what is left without ETX |
| FBII.FiscalOfPlain | stoqdrivers/printers/epson/FBII.py:103-122 | the fiscal status is the big-endian value of its two bytes, then the tail parses as above |
| FBII.StatusesOfPlain | stoqdrivers/printers/epson/FBII.py:101-122 | the printer and fiscal statuses are the big-endian values of their byte pairs, the status string and the fields follow |
| FBII.FrameOfPlain | stoqdrivers/printers/epson/FBII.py:89-122 | an unescaped reply with STX, the expected id and ETX at the end parses into its statuses, status string and fields |
| FBII.PlainReplyParses | stoqdrivers/printers/epson/FBII.py:79-122 | a reply without ESC, followed by its own checksum, parses into its statuses, the status string and the FLD-separated fields |
| FBII.Reply.Pop | stoqdrivers/printers/epson/FBII.py:131-136 | pop(size) returns the first size characters (fewer when fewer are left) and leaves the rest; nothing else changes |
| FBII.Reply.PopTail | stoqdrivers/printers/epson/FBII.py:109-122 | popping the status, separator and reserved byte, and splitting the fields, ends as the tail parser says |
| FBII.Reply.PopFiscal | stoqdrivers/printers/epson/FBII.py:103-122 | popping the fiscal status and what follows ends as the fiscal parser says |
| FBII.Reply.PopStatuses | stoqdrivers/printers/epson/FBII.py:101-122 | popping both statuses and what follows ends as the status parser says |
| FBII.Reply.PopFrame | stoqdrivers/printers/epson/FBII.py:89-122 | the STX, frame id and ETX checks on the unescaped string end as the frame parser says |
| FBII.Reply.Parse | stoqdrivers/printers/epson/FBII.py:79-122 | Reply(string, command_id) ends with the error the reply parser gives, or holding the data it gives |
| FBII.NewReply | stoqdrivers/printers/epson/FBII.py:79-122 | a new reply object holds the parsed data, or the parse error is returned |
| FBII.ReadUntilEtxFrom | stoqdrivers/printers/epson/FBII.py:195-201 | the read loop ends only on ETX not after ESC, consuming at least one step; an exhausted port makes it spin, and an ETX read first raises IndexError |
| FBII.ReadUntilKeepsOrder | stoqdrivers/printers/epson/FBII.py:195-201 | the reply read is what came before plus every byte heard, in order, up to where the loop stopped |
| FBII.EscapedEtxReadOn | stoqdrivers/printers/epson/FBII.py:200-201 | an ETX right after ESC is kept as data and the loop goes on |
| FBII.EscapedEscHidesEtx | stoqdrivers/printers/epson/FBII.py:200-201 | data ending in ESC (sent as ESC ESC) followed by the real ETX: that ETX is read as data and the loop goes on |
| FBII.ReadUntilPlainEtx | stoqdrivers/printers/epson/FBII.py:195-201 | bytes with no ETX, not ending in ESC, then ETX are read exactly up to that ETX |
| FBII.ReadReplyFrom | stoqdrivers/printers/epson/FBII.py:189-208 | a reply that parses has used up at least one step of the port |
| FBII.ReadAll | stoqdrivers/printers/epson/FBII.py:203 | read(4) on four bytes in a row returns them and leaves the rest |
| FBII.ReadReplyWhole | stoqdrivers/printers/epson/FBII.py:189-208 | ACK, then a reply with a single final ETX, then four checksum characters: exactly those are read, ACK is sent back, and the reply is parsed |
| FBII.OneReplyRead | stoqdrivers/printers/epson/FBII.py:215-219 | since no reply is intermediate, _send_command reads exactly one reply |
| FBII.Checked | stoqdrivers/printers/epson/FBII.py:221 | check_error() keeps errors, and turns a final reply whose status is not '0000' into DriverError |
| FBII.SendCommandSent | stoqdrivers/printers/epson/FBII.py:210-222 | a package that is built and writable goes out before anything the reply loop sends, and the id is the last plus one |
| FBII.SendCommandAnswered | stoqdrivers/printers/epson/FBII.py:210-222 | a printer answering ACK and a plain reply: the package then ACK are sent, the script is used exactly to the reply's end, and the result is the reply's data when both status bytes are zero, else DriverError |
| FBII.FBII.constructor | stoqdrivers/printers/epson/FBII.py:160-162 | a new driver starts its id counter at 138, on the default serial framing |
| FBII.FBII.NextCommandId | stoqdrivers/printers/epson/FBII.py:168-170 | the counter moves by one and chr() of the new value is returned |
| FBII.FBII.GetPackage | stoqdrivers/printers/epson/FBII.py:172-187 | the package and the new counter are those of the package specification |
| FBII.FBII.ReadReply | stoqdrivers/printers/epson/FBII.py:189-208 | what is read, sent and returned is what the reply-read specification gives |
| FBII.FBII.SendCommand | stoqdrivers/printers/epson/FBII.py:210-222 | the counter, the bytes sent, the script used and the reply returned are those of the send specification |
| Serial.EmitAppend | stoqdrivers/serialbase.py:107-111 | two runs of writes one after the other: the second runs only when the first went through, and the bytes on the wire are the first run's then the second's |
| Serial.EmitOne | stoqdrivers/serialbase.py:107-111 | one write of a byte string puts its bytes on the wire; any other text raises ValueError and writes nothing |
| Serial.EmitRaises | stoqdrivers/serialbase.py:107-111 | an exception raised while building the text ends the method with nothing written |
| Serial.EmitBytes | stoqdrivers/serialbase.py:107-111 | a text whose characters are the given bytes is written as exactly those bytes |
| Serial.ReadLineOfLine | stoqdrivers/serialbase.py:118-136 | a device that sends a line of bytes without the delimiter and then the delimiter: readline returns that line and leaves the rest of the script unread |
| EscPos.Upper | stoqdrivers/escpos.py:149 | upper() keeps the length and maps every character on its own |
| EscPos.SelectionsAreBytes | stoqdrivers/escpos.py:39-60 | every code page selection number is a byte below 0x20 |
| EscPos.SelectionsDistinct | stoqdrivers/escpos.py:39-60 | no two code pages share a selection number |
| EscPos.NamesDistinct | stoqdrivers/escpos.py:39-60 | no two code pages share a name, so the table is a valid constant table |
| EscPos.CharcodeOfIsRow | stoqdrivers/escpos.py:147-151 | a code page that is found is a row of CHARCODES whose name is the upper-cased request |
| EscPos.CharcodeIgnoresCase | stoqdrivers/escpos.py:149 | the lookup depends on the name only up to upper case |
| EscPos.CharcodeOfName | stoqdrivers/escpos.py:147-151 | every name in CHARCODES, written in any case, finds its own row |
| EscPos.SelectionBytes | stoqdrivers/escpos.py:149-151 | ESC t n goes out as the three bytes 0x1B 0x74 n |
| EscPos.InlineBytes | stoqdrivers/escpos.py:177-193 | a non-empty byte text is written as font B (ESC M 1) followed by its bytes |
| EscPos.ConcatAppend | stoqdrivers/escpos.py:202-209 | joining the pieces of two lists is joining each list's pieces |
| EscPos.BarcodeChunksCover | stoqdrivers/escpos.py:195-209 | the halves print_barcode splits a long code into join back to the code, each fits in 27 characters and none is empty |
| EscPos.SeparatedAppend | stoqdrivers/escpos.py:202-209 | the writes for two runs of pieces are those of the first, a line break, those of the second |
| EscPos.BarcodeCallsArePieces | stoqdrivers/escpos.py:195-220 | the writes of print_barcode are, for each piece in order, the barcode setup and its CODE93 command, with print_line('') between two pieces |
| EscPos.ShortBarcode | stoqdrivers/escpos.py:200-220 | a code of at most 27 ASCII characters is printed in one piece, as GS k 'H', its length and itself |
| EscPos.BarcodeSucceeds | stoqdrivers/escpos.py:195-220 | print_barcode goes through exactly when the code is ASCII |
| EscPos.LongBarcodeEmit | stoqdrivers/escpos.py:202-209 | a long code prints its first half, a line break and its second half, stopping at the first half that raises |
| EscPos.ShortBarcodeEmit | stoqdrivers/escpos.py:210-220 | a short code writes the setup and then its CODE93 command when it is ASCII, or raises ValueError after the setup |
| EscPos.SetupBytes | stoqdrivers/escpos.py:212-217 | the barcode setup is height 80, width 2, font A and no human-readable text, as twelve bytes |
| EscPos.QrStoreHeader | stoqdrivers/escpos.py:239-245 | the store command is GS ( k, the length of the code plus three in two little-endian bytes, '1P0' and the code |
| EscPos.QrStoreBytes | stoqdrivers/escpos.py:222-248 | the store command is a byte string exactly when the code is |
| EscPos.QrEmit | stoqdrivers/escpos.py:222-248 | print_qrcode writes size, level, store and print in that order, or raises ValueError at the store command when the code is not a byte string |
| EscPos.QrFixedBytes | stoqdrivers/escpos.py:231-248 | module size 4, error level L (48) and the print command, as bytes |
| EscPos.CutBytes | stoqdrivers/escpos.py:250-253 | cut_paper writes font B and four line feeds, then GS V 0 |
| EscPos.Printer.constructor | stoqdrivers/escpos.py:126-133 | the columns are kept and no code page is selected |
| EscPos.Printer.SetCharcode | stoqdrivers/escpos.py:135-151 | None clears the code page and sends nothing; an unknown name raises KeyError and changes nothing; a known one is selected with ESC t n |
| EscPos.Printer.Centralize | stoqdrivers/escpos.py:157-159 | ESC a 1 is written |
| EscPos.Printer.Descentralize | stoqdrivers/escpos.py:161-163 | ESC a 0 is written |
| EscPos.Printer.SetBold | stoqdrivers/escpos.py:165-167 | ESC E 1 is written |
| EscPos.Printer.UnsetBold | stoqdrivers/escpos.py:169-171 | ESC E 0 is written |
| EscPos.Printer.PrintInline | stoqdrivers/escpos.py:177-193 | the result and the bytes written are those of the inline writes: nothing for empty text, else font B then the text |
| EscPos.Printer.PrintLine | stoqdrivers/escpos.py:173-175 | print_inline of the text and a line feed |
| EscPos.Printer.PrintBarcode | stoqdrivers/escpos.py:195-220 | the result and the bytes written are those of the barcode writes, the recursion on the halves included |
| EscPos.Printer.PrintQrcode | stoqdrivers/escpos.py:222-248 | the result and the bytes written are those of the four QR writes |
| EscPos.Printer.CutPaper | stoqdrivers/escpos.py:250-253 | ESC M 1, four line feeds and GS V 0 are written |
| EscPos.NewPrinter | stoqdrivers/escpos.py:126-133 | a printer is made unless the requested code page is unknown (KeyError, nothing written); a known one is selected on the wire |
| SI300.Mask | stoqdrivers/printers/sweda/SI300.py:30-32 | the bit of a style flag is a power of two |
| SI300.ModeCommand | stoqdrivers/printers/sweda/SI300.py:43-45 | ESC ! n carries the mode in its third byte |
| SI300.WithFlagBits | stoqdrivers/printers/sweda/SI300.py:47-48 | setting a style turns its bit on and no other bit changes |
| SI300.WithoutFlagBits | stoqdrivers/printers/sweda/SI300.py:51-52 | unsetting a style turns its bit off and no other bit changes |
| SI300.SameBitsSameMode | stoqdrivers/printers/sweda/SI300.py:43-45 | two modes with the same eight bits are the same mode |
| SI300.SetThenUnsetRestores | stoqdrivers/printers/sweda/SI300.py:47-69 | set then unset gives back a mode in which the style was off |
| SI300.UnsetThenSetRestores | stoqdrivers/printers/sweda/SI300.py:47-69 | unset then set gives back a mode in which the style was on |
| SI300.FlagsIdempotent | stoqdrivers/printers/sweda/SI300.py:47-69 | setting or unsetting twice is doing it once |
| SI300.StyleBitsKept | stoqdrivers/printers/sweda/SI300.py:30-32 | from the initial mode the style methods only ever reach modes made of the three style bits, at most 25 |
| SI300.Printer.constructor | stoqdrivers/printers/sweda/SI300.py:38-41 | the text mode starts at 0 |
| SI300.Printer.SetTextMode | stoqdrivers/printers/sweda/SI300.py:43-45 | the mode is stored and ESC ! mode is written |
| SI300.Printer.SetCondensed | stoqdrivers/printers/sweda/SI300.py:47-49 | the condensed bit is set in the mode and the new mode is written |
| SI300.Printer.UnsetCondensed | stoqdrivers/printers/sweda/SI300.py:51-53 | the condensed bit is cleared and the new mode is written |
| SI300.Printer.SetBold | stoqdrivers/printers/sweda/SI300.py:55-57 | the bold bit is set and the new mode is written |
| SI300.Printer.UnsetBold | stoqdrivers/printers/sweda/SI300.py:59-61 | the bold bit is cleared and the new mode is written |
| SI300.Printer.SetDoubleHeight | stoqdrivers/printers/sweda/SI300.py:63-65 | the double-height bit is set and the new mode is written |
| SI300.Printer.UnsetDoubleHeight | stoqdrivers/printers/sweda/SI300.py:67-69 | the double-height bit is cleared and the new mode is written |
| SI300.Printer.PrintMatrix | stoqdrivers/printers/sweda/SI300.py:71-78 | the matrix is printed out of condensed mode; the mode is put back, and its command written, only when printing went through and the mode was condensed; an error leaves the mode uncondensed |
| MP2100TH.SetupEmit | stoqdrivers/printers/bematech/MP2100TH.py:80-82 | the barcode setup is height 120, width 2 and no human-readable text, as nine bytes |
| MP2100TH.BarcodeBytes | stoqdrivers/printers/bematech/MP2100TH.py:78-87 | print_barcode writes the setup, then GS k 'I', the code's length in one byte and the code; a code over 255 characters or not a byte string raises ValueError after the setup |
| MP2100TH.LastCommand | stoqdrivers/printers/bematech/MP2100TH.py:83-87 | the barcode command is a byte string exactly when the code is, and is its four header bytes followed by the code |
| MP2100TH.Printer.constructor | stoqdrivers/printers/bematech/MP2100TH.py:42-46 | neither bold nor centred, and ESC S I is written |
| MP2100TH.Printer.Centralize | stoqdrivers/printers/bematech/MP2100TH.py:48-52 | ESC a 1 is written only when the printer was not centred; afterwards it is, and bold is untouched |
| MP2100TH.Printer.Descentralize | stoqdrivers/printers/bematech/MP2100TH.py:54-58 | ESC a 0 is written only when the printer was centred; afterwards it is not |
| MP2100TH.Printer.SetBold | stoqdrivers/printers/bematech/MP2100TH.py:60-64 | ESC E is written only when the printer was not bold; afterwards it is, and centring is untouched |
| MP2100TH.Printer.UnsetBold | stoqdrivers/printers/bematech/MP2100TH.py:66-70 | ESC F is written only when the printer was bold; afterwards it is not |
| MP2100TH.Printer.PrintLine | stoqdrivers/printers/bematech/MP2100TH.py:72-73 | one write of the text and a line feed |
| MP2100TH.Printer.PrintInline | stoqdrivers/printers/bematech/MP2100TH.py:75-76 | one write of the text |
| MP2100TH.Printer.PrintBarcode | stoqdrivers/printers/bematech/MP2100TH.py:78-87 | the result and the bytes written are those of the barcode writes |
| I9.Commands | stoqdrivers/printers/elgin/I9.py:113-116 | one write per piece, in order, each the piece's command |
| I9.PiecesCover | stoqdrivers/printers/elgin/I9.py:113-114 | the pieces join back to the code, there are ceil(len/22) of them, each has 1 to 22 characters and all but the last exactly 22 |
| I9.PieceAnnouncement | stoqdrivers/printers/elgin/I9.py:108-114 | every piece announces 24 bytes, which matches the piece only when it has 22 characters |
| I9.BarcodeStart | stoqdrivers/printers/elgin/I9.py:103-106 | height 80 and width 2 go out first, then the pieces |
| I9.BarcodeStep | stoqdrivers/printers/elgin/I9.py:113-114 | each piece's command goes out, or raises ValueError and ends the barcode |
| I9.BarcodeEnd | stoqdrivers/printers/elgin/I9.py:116 | after the last piece only a line feed is written |
| I9.DrawerStateMeaning | stoqdrivers/printers/elgin/I9.py:158-161 | no reply raises IndexError; a reply starting with a digit answers, open exactly for '0'; anything else raises ValueError |
| I9.Printer.constructor | stoqdrivers/printers/elgin/I9.py:54-59 | condensed, left-aligned, bold off and double height off are written in that order |
| I9.Printer.Centralize | stoqdrivers/printers/elgin/I9.py:61-62 | ESC a 1 is written |
| I9.Printer.Descentralize | stoqdrivers/printers/elgin/I9.py:64-65 | ESC a 0 is written |
| I9.Printer.SetBold | stoqdrivers/printers/elgin/I9.py:67-68 | ESC E 1 is written |
| I9.Printer.UnsetBold | stoqdrivers/printers/elgin/I9.py:70-71 | ESC E 0 is written |
| I9.Printer.SetCondensed | stoqdrivers/printers/elgin/I9.py:73-74 | ESC M 1 is written |
| I9.Printer.UnsetCondensed | stoqdrivers/printers/elgin/I9.py:76-77 | ESC M 0 is written |
| I9.Printer.SetDoubleHeight | stoqdrivers/printers/elgin/I9.py:79-80 | ESC G 1 is written |
| I9.Printer.UnsetDoubleHeight | stoqdrivers/printers/elgin/I9.py:82-83 | ESC G 0 is written |
| I9.Printer.PrintLine | stoqdrivers/printers/elgin/I9.py:85-86 | one write of the text and a line feed |
| I9.Printer.PrintInline | stoqdrivers/printers/elgin/I9.py:88-89 | one write of the text |
| I9.Printer.PrintBarcode | stoqdrivers/printers/elgin/I9.py:91-116 | the loop writes exactly the setup, the piece commands and the final line feed, stopping at the first piece that raises |
| I9.Printer.PrintQrcode | stoqdrivers/printers/elgin/I9.py:118-147 | the same four QR writes as the ESC/POS driver |
| I9.Printer.CutPaper | stoqdrivers/printers/elgin/I9.py:149-150 | GS V 48 is written |
| I9.Printer.OpenDrawer | stoqdrivers/printers/elgin/I9.py:152-156 | ESC p '0' '0' '5' is written |
| I9.Printer.IsDrawerOpen | stoqdrivers/printers/elgin/I9.py:158-161 | GS r 2 is written, one byte is read, and the answer is that byte's drawer state |
| Scales.Hundredths | stoqdrivers/scales/toledo/PrixIII.py:65-67 | a price field reads exactly when it is a number, and is that number divided by 100 |
| Scales.Thousandths | stoqdrivers/scales/toledo/PrixIII.py:66 | a weight field reads exactly when it is a number, and is that number divided by 1000 |
| Scales.PrecisionsAreThoseScales | stoqdrivers/scales/toledo/PrixIII.py:40-41 | 10 ** PRICE_PRECISION is 100 and 10 ** QUANTITY_PRECISION is 1000 |
| Scales.ZeroPaddedField | stoqdrivers/scales/toledo/PrixIII.py:63-67 | a zero-padded field of w digits reads back, through int() and as a decimal, as the number written |
| Scales.SpacePaddedField | stoqdrivers/scales/micheletti/MicP15.py:54-56 | leading spaces before the digits do not change the number read |
| PrixIII.Prt4Outcomes | stoqdrivers/scales/toledo/PrixIII.py:59-67 | only empty data is the empty package; a non-STX or wrong-length reply is InvalidReply; a frame gives all four fields exactly when they are numbers, else ValueError |
| PrixIII.Prt1Outcomes | stoqdrivers/scales/toledo/PrixIII.py:86-91 | the same for Prt1, whose one field is the weight |
| PrixIII.Prt4IgnoresLast | stoqdrivers/scales/toledo/PrixIII.py:59-67 | the last character of a Prt4 frame does not change the reading |
| PrixIII.Prt4RoundTrip | stoqdrivers/scales/toledo/PrixIII.py:59-67 | a Prt4 frame built from a code, weight, price and total reads back as them, in kilograms and units |
| PrixIII.Prt1RoundTrip | stoqdrivers/scales/toledo/PrixIII.py:86-91 | a Prt1 frame built from a weight reads back as it, in kilograms |
| PrixIII.ReplyIsNeverEmpty | stoqdrivers/scales/toledo/PrixIII.py:108-113 | since ETX is put back, a reading is never the empty package, and it is a package only for STX and five more characters |
| PrixIII.ReadDataOfFrame | stoqdrivers/scales/toledo/PrixIII.py:108-120 | a scale that sends a Prt1 frame and ETX: readline returns the frame and read_data reads its weight |
| PrixIII.Scale.constructor | stoqdrivers/scales/toledo/PrixIII.py:94-106 | the serial line has prefix 0x05, no suffix and ETX as delimiter |
| PrixIII.Scale.ReadData | stoqdrivers/scales/toledo/PrixIII.py:108-120 | 0x05 is written, a line is read up to ETX, and the result is the Prt1 reading of that line with ETX put back, or the read's error |
| MicP15.PackageOutcomes | stoqdrivers/scales/micheletti/MicP15.py:48-56 | only empty data is the empty package; a non-STX or wrong-length reply is InvalidReply; a frame gives the three amounts, never a code, exactly when they are numbers, else InvalidOperation |
| MicP15.SeparatorsIgnored | stoqdrivers/scales/micheletti/MicP15.py:54-56 | the characters between the columns and the last one do not change the reading |
| MicP15.FrameRoundTrip | stoqdrivers/scales/micheletti/MicP15.py:48-56 | a frame built from a weight, price and total reads back as them |
| MicP15.SamplePacketReading | stoqdrivers/scales/micheletti/MicP15.py:71-72 | the recorded reply reads 0.800 kg at 999.99 per kilo, 799.99 in all |
| MicP15.ReadDataOfSample | stoqdrivers/scales/micheletti/MicP15.py:70-85 | the recorded reply on the wire: readline stops at its ETX and read_data gives that reading |
| MicP15.Scale.constructor | stoqdrivers/scales/micheletti/MicP15.py:60-68 | the serial line has prefix 0x05, no suffix and ETX as delimiter |
| MicP15.Scale.ReadData | stoqdrivers/scales/micheletti/MicP15.py:70-85 | 0x05 is written, a line is read up to ETX, and the result is the package reading of that line with ETX put back, or the read's error |

## Left out

- Physical transport: opening and closing the serial or USB device, `set_options` (baud rate, parity, stop bits, write timeouts) and `fileno` are not modelled; the port is a script of bytes and silences to be read and a log of bytes written.
- Reflective driver loading and configuration: `BaseDevice`, the `get_supported_*` listings, `get_obj_from_module` and the FiscNet configuration-file read are not modelled, because they only locate classes and files.
- The virtual printer's window and its JSON state file are not modelled; the printer-off and drawer flags are plain fields and printed text is not kept.
- Text conversion through Python codecs (`encode_text`, `decode_text`, NFKD normalisation) is not modelled; only the ABICOMP table is.
- Clocks and sleeps: `time.sleep` is a no-op, and today's date is a parameter wherever the source reads the clock.
- Exception messages and logging are not modelled; an exception is its class and, for driver errors, the code it carries. stoqdrivers/exceptions.py is not part of this model: every driver exception is taken to be a DriverError carrying the code it was raised with.
- Debug and aggregation routines (`print_status`, `show_*`, the Sintegra reports) are not modelled.
- The thin drivers (DR700, TP650, TMT20, TMT70, SI150, BKC310, FBIII, the FiscNet cheque printer and `nonfiscal.py`) only hold constants or delegate, and are not modelled.
- SI300.Printer.PrintMatrix: the inherited `print_matrix` is not part of this model; the writes it makes are a parameter, a sequence of writes or a raised exception, so the choice between the 8-bit and 24-bit raster APIs is not captured.
- SI300.Printer.SetTextMode: the mode is held in 8 bits; the style methods only ever reach modes below 32, but a mode of 256 or more, which `chr` would refuse, cannot be passed.
- EscPos.Printer.PrintInline: the `unicode()` conversion and the `encode(codepage)` step are not modelled; the text is written one byte per character, and a character above 255 raises ValueError.
- EscPos.Upper: upper-casing is ASCII-only, so a non-ASCII character that Python upper-cases to an ASCII letter (the dotless i) does not find its code page in the model.
- Python version: the source mixes Python 2 and Python 3. The ESC/POS drivers (`escpos.py`, SI300, I9, MP2100TH), FS2100 (`except DriverError, e`), FBII (`print` statements, `implements`) and Prix III (`print` statements) are Python 2 code, while `str2bytes` and `bytes2str` in utils.py are Python 3 code. The model takes each as written: Utils.Str2Bytes and Utils.Bytes2Str have their Python 3 meaning (a str of code points to bytes and back), the drivers' strings are byte strings, and `chr` has its Python 2 meaning, refusing anything above 255 (FBII.Chr, and through it FBII.IdsRunOut's bound of 117 commands). Under Python 3 `chr(256)` succeeds, so an exhausted FBII command id would fail later, at str2bytes, and the mix of `bytes` and `str` (for example GS + b'r2' in I9's `is_drawer_open`) and the name `unicode` raise TypeError or NameError; the model does not follow Python 3 there.
- Floating point: the Prix III `float()` divisions and FiscNet's `'%.03f'` formatting are modelled as exact decimal arithmetic, rounding half to even where the source rounds; binary rounding error is not modelled.
- Capabilities.NewCapability: the float bound `10.0 ** digits - 1 + (1 - 1 / 10.0 ** decimals)` is overwritten, so only the exceptions its arithmetic raises are modelled; a non-integral decimals between about 308.25 and 309 also overflows in Python, and one between -324 and about -323.6 also rounds to 0.0 and raises ZeroDivisionError, while the model lets both through.
- Number parsing: `Decimal()` and `float()` fields with an exponent, `NaN`, `Infinity` or underscores, and `int()` fields with underscores or non-ASCII digits, read as malformed in the model although Python accepts them.
- FBII.FBII.ReadReply: `_read_reply` loops forever on a silent port; the model returns the Spins outcome when the script is used up instead of running on.
- Serial.Port.Read: the recorded-session port of tests/base.py (`PlaybackPort`) returns None once its recording is used up, so `bytes2str` then raises TypeError; the model is the pyserial port, whose timed-out read returns nothing.
- Serial.Port.Write: `PlaybackPort.write` raises ValueError when the bytes differ from the recording; the model is the pyserial port, which sends whatever it is given.
- tests/test_flow.py targets an API that no longer exists and is not modelled; the coupon scenarios follow tests/test_coupon.py.
