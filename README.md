# Hospital chatbot: decision routines

This project models the deterministic core of a hospital chatbot and proves properties of it. The chatbot is a FastAPI endpoint in front of a LangGraph conversation graph. Its handlers book appointments and recommend doctors from a hosted doctor directory. The language model's output, the store's query results, the clock and the date parsers are all inputs to the model. The rest is modelled branch for branch, with the exceptions listed under "## Left out":

- how a date phrase is resolved (`tomorrow`, `day after tomorrow`, `YYYY/MM/DD`);
- the slot-window test on time strings, which compares them as Python strings;
- the availability filters and their loops, including the recommendation handler's slip;
- the booking handler's guard order, the first-slot check and the appointment record;
- the weekday-key filter, normalisers and insert validation of `tools.py`;
- the keyword intent classifier, the symptom matcher and the `info_node` filter;
- the routing table of the graph;
- the per-session chat history and its six-entry context window.

Modules, one per source file plus shared helpers:

| module | file | models |
|---|---|---|
| `Wrappers` | wrappers.dfy | `Option` |
| `Text` | text.dfy | Python `not s`, `str.lower()` (ASCII), `in`, string `<=`, `str.strip()`, `"\n".join`, `str(int)` |
| `Seqs` | seqs.dfy | order-preserving selection and the subsequence relation |
| `Calendar` | calendar.dfy | `datetime` dates: ordinal, weekday, `+ timedelta(days=n)`, `strftime`, `strptime(s, "%Y/%m/%d")`, `isoformat` |
| `Scheduling` | scheduling.dfy | rows, replies, date-phrase resolution, slot windows, the booking handler's availability loop |
| `Booking` | booking.dfy | backend/Nodes/bk_apt.py |
| `Recommend` | recommend.dfy | backend/Nodes/rec_doc.py |
| `Tools` | tools.dfy | backend/tools.py |
| `Intent` | intent.dfy | backend/Nodes/intent.py |
| `Api` | api.dfy | `recommend_doctor` in api.py |
| `Nodes` | nodes.dfy | `info_node` and the intent normalisation of backend/nodes.py |
| `Graph` | graph.dfy | backend/graph.py |
| `Server` | server.dfy | the `/chat` handler of backend/main.py, as the class `ChatServer` |

A handler's outcome is a `Reply`. It is either the text stored in `state["response"]` or the name of the Python exception that escapes the handler. Where the source raises `OverflowError` (`now + timedelta` after 9999-12-31) or `NameError`, the model says so.

Two consequences of the order of the relative-date tests are worth stating:

- "tomorrow" is tested before "day after tomorrow", so the `now + 2` branch is dead (`Scheduling.DayAfterTomorrowIsTomorrow`).
- "today" is not a relative term and gets the format error (`Scheduling.TodayIsNotRecognised`).

## Model

| member | source | states |
|---|---|---|
| Text.Lower | backend/Nodes/intent.py:3 | `str.lower()` keeps the length and maps each character on its own, upper-case ASCII to lower case |
| Text.Contains | backend/Nodes/intent.py:5 | `sub in s`: never true for a longer `sub`, always true for the empty one; equal to "occurs at some index" by `Text.ContainsOccurs` |
| Text.StrLe | backend/Nodes/bk_apt.py:120 | string `<=`: a prefix is below the longer string and a longer string is not below its own prefix; the full order is `Text.StrLeLexLe` |
| Text.ContainsOccurs | backend/Nodes/intent.py:5 | the computed substring test holds iff the word occurs at some index (Python's `sub in s`), both directions |
| Text.StrLeLexLe | backend/Nodes/bk_apt.py:120 | the string comparison used on slot times is lexicographic: a prefix, or smaller at the first difference, both directions |
| Text.ContainsInContext | backend/Nodes/intent.py:3-5 | a word found in the lowered fragment is still found in the lowered text around it |
| Text.Strip | backend/nodes.py:34 | the result is a slice of the input whose removed ends are all whitespace, and it neither starts nor ends with whitespace |
| Calendar.NextDay | backend/Nodes/bk_apt.py:58 | the next day is a valid date one ordinal later; there is none exactly for 9999-12-31, where Python overflows |
| Calendar.AddDays | backend/Nodes/bk_apt.py:58-60 | a present result is a valid date exactly n ordinals later |
| Calendar.WeekdayName | backend/Nodes/bk_apt.py:156 | `%A` is one of the seven day names; the k-th name, Monday first, is printed exactly on the days whose ordinal is k + 1 modulo 7 (so "Monday" on remainder 1, "Sunday" on remainder 0) |
| Calendar.WeekdayAbbrev | backend/tools.py:48 | `%a` is the first three letters of the `%A` name |
| Calendar.Format | backend/Nodes/bk_apt.py:69 | the printed date, with '/' as in `strftime("%Y/%m/%d")` or '-' as in `isoformat()`, is ten characters whose year, month and day fields read back in decimal as the date's own |
| Calendar.NextDayWeekday | backend/Nodes/bk_apt.py:156 | the weekday of the next day is today's plus one, modulo 7 |
| Calendar.NewYear2024IsMonday | backend/Nodes/bk_apt.py:156 | the day numbering puts 2024/01/01 on a Monday (`%A` = "Monday", `%a` = "Mon") |
| Calendar.Parse | backend/Nodes/bk_apt.py:62-66 | every date `strptime(s, "%Y/%m/%d")` accepts is a valid calendar date |
| Calendar.ParseFormat | backend/Nodes/bk_apt.py:156 | with four-digit years, parsing the printed `%Y/%m/%d` form of a valid date gives that date back, so the re-parse before the weekday lookup cannot fail |
| Scheduling.ResolveDate | backend/Nodes/bk_apt.py:52-66 | a resolved date phrase is a valid date |
| Scheduling.TomorrowIsNextDay | backend/Nodes/bk_apt.py:57-58 | a phrase containing "tomorrow" in any case resolves to the next day, or overflows on the last day; its weekday follows today's |
| Scheduling.DayAfterTomorrowIsTomorrow | backend/Nodes/bk_apt.py:57-60 | a phrase containing "day after tomorrow" contains "tomorrow" and resolves exactly like "tomorrow": the +2 branch is unreachable |
| Scheduling.AbsoluteDate | backend/Nodes/bk_apt.py:61-66 | without "tomorrow", the format error comes iff `strptime` fails, and otherwise the parsed date is used |
| Scheduling.TodayIsNotRecognised | backend/Nodes/bk_apt.py:57-66 | "today" gives the format error |
| Scheduling.InWindow | backend/Nodes/bk_apt.py:120 | the slot test `start_time <= time <= end_time` as two Python string comparisons; its meaning as an order is `Scheduling.InWindowBetween` |
| Scheduling.InWindowBetween | backend/Nodes/bk_apt.py:120 | the slot test holds iff the time lies between the two ends in lexicographic order (prefix, or smaller at the first difference), both directions |
| Scheduling.WindowEndsIncluded | backend/Nodes/bk_apt.py:120 | both ends of a well-formed slot window are inside it |
| Scheduling.InWindowConvex | backend/Nodes/bk_apt.py:120 | the window is an interval of the string order: a time between two admitted times is admitted |
| Scheduling.OutsideWindow | backend/Nodes/bk_apt.py:120 | a time not admitted sorts strictly before the start or strictly after the end |
| Scheduling.PointWindow | backend/Nodes/bk_apt.py:120 | a slot whose start and end are equal admits exactly that time |
| Scheduling.MinuteAgainstSeconds | backend/Nodes/bk_apt.py:120 | a requested "09:00" is outside a slot stored as "09:00:00"-"17:00:00", while "17:00" is inside |
| Scheduling.AvailableDoctors | backend/Nodes/bk_apt.py:106-122 | the nested loop with `continue` and `break` returns exactly the order-preserving filter of doctors having an admitting slot |
| Scheduling.AvailableIsSubseq | backend/Nodes/bk_apt.py:106-122 | the available list is a subsequence of the specialization's doctors, in their order |
| Scheduling.AvailableMember | backend/Nodes/bk_apt.py:115-122 | a doctor is listed iff it is among the input and one of its slots admits the time; a doctor with no slot rows is never listed |
| Scheduling.AvailableCount | backend/Nodes/bk_apt.py:119-121 | a listed doctor appears exactly as often as in the input, never twice for one input row |
| Scheduling.AvailableEmpty | backend/Nodes/bk_apt.py:127-129 | the list is empty, giving the "No … doctors are available" reply, iff no doctor has an admitting slot |
| Booking.Accepted | backend/Nodes/bk_apt.py:146-172 | the booking condition: a time and a name, a doctor found by name, and a first availability row for that doctor on the weekday that admits the time (later rows are never looked at) |
| Booking.Continue | backend/Nodes/bk_apt.py:76-187 | the reply on every branch: missing time, no doctor or concern, no doctors, none available, the list, doctor not found, not available on the weekday, not available at the time, booked; an insert happens iff the doctor is found, its weekday slots are non-empty and the first slot admits the time; the record itself and the success text follow |
| Booking.Book | backend/Nodes/bk_apt.py:52-70 | as written: a missing date gives "Please provide a valid date.", a bad one the format error, overflow raises, every resolved date raises NameError, and nothing is ever inserted |
| Booking.BookCorrected | backend/Nodes/bk_apt.py:52-187 | without the undefined lookup: the same date guards, then an insert iff the resolved date passes `Continue`'s acceptance, with the record of patient id (default 1), date, time and doctor id |
| Booking.TomorrowResolves | backend/Nodes/bk_apt.py:57-70 | "tomorrow" resolves on every day but the last, so it reaches the undefined lookup |
| Recommend.FirstMatch | backend/Nodes/rec_doc.py:91-95 | the result is absent iff no slot admits the time, and otherwise it is the admitting slot with no admitting slot before it |
| Recommend.AccumulateRows | backend/Nodes/rec_doc.py:73-95 | the nested loop's `available_doctors` equals `Accumulated`: each doctor followed by its first admitting slot |
| Recommend.AccumulatedDoctors | backend/Nodes/rec_doc.py:73-83 | the doctor rows of the result are exactly the specialization's doctors, in order, whether or not they have slots |
| Recommend.SlotRowsFollowTheirDoctor | backend/Nodes/rec_doc.py:91-95 | every slot row stands right after a doctor row and is that doctor's first admitting slot |
| Recommend.OnlyDoctorRowsIffNoneAvailable | backend/Nodes/rec_doc.py:73-95 | the result has no slot row iff the intended filter `Scheduling.Available` is empty |
| Recommend.FormatRows | backend/Nodes/rec_doc.py:109-112 | the list lines exist iff every row is a doctor row (no KeyError), and are then the doctors' lines in order |
| Recommend.AsRows | backend/Nodes/rec_doc.py:96-98 | without a time the rows are all the doctors, unfiltered |
| Recommend.Recommend | backend/Nodes/rec_doc.py:20-123 | date guard before specialization guard; then "couldn’t find any" for no doctors; without a time all doctors are listed; with a time the reply is the KeyError text iff the intended filter is non-empty, else all doctors are listed |
| Recommend.RecommendCorrected | backend/Nodes/rec_doc.py:20-123 | the same guards; with a time the listed doctors are exactly `Scheduling.Available`, and "No … available on {date} at {time}." when it is empty |
| Recommend.OneBookableDoctor | backend/Nodes/rec_doc.py:83-94 | one doctor with a 09:00:00-17:00:00 slot asked at "10:00" is available, yet the rows as written contain a slot row |
| Tools.NormalizeDate | backend/tools.py:7-13 | None exactly for an empty or missing input; the input unchanged when unparsed; when parsed, `YYYY-MM-DD` whose fields read as the parsed date's year, month and day |
| Tools.NormalizeTime | backend/tools.py:16-22 | None exactly for an empty or missing input; the input unchanged when unparsed; when parsed, `HH:MM` whose fields read as the parsed hour and minute |
| Tools.NormalizeDateIdempotent | backend/tools.py:7-13 | with a parser that reads ISO dates back, normalising twice equals normalising once |
| Tools.LoweredGet | backend/tools.py:59-60 | the value under the last key that lowers to the weekday, absent iff no key does |
| Tools.QueryWeekday | backend/tools.py:45-50 | a key is derived iff `fromisoformat` accepts the normalised date, and it is then the lowered `%a` of that date: "mon" to "sun" by `date.weekday()` |
| Tools.GetDoctorInfo | backend/tools.py:44-67 | the result is the dict `{"doctors": rows}`; without a date, or without a derivable weekday, the rows are unfiltered; otherwise the loop leaves exactly the weekday-key filter |
| Tools.WeekdayFilterIsSubseq | backend/tools.py:53-65 | the filtered rows are a subsequence of the rows, in order |
| Tools.MissingSlotsDropped | backend/tools.py:55 | a row with absent, null, empty or false `available_slots` is dropped |
| Tools.NonObjectSlotsKept | backend/tools.py:62-64 | a row whose truthy `available_slots` is not an object is kept |
| Tools.ObjectSlotsKeptIff | backend/tools.py:57-61 | a row with an object of slots is kept iff the last key lowering to the weekday holds a truthy value |
| Tools.StartIso | backend/tools.py:82 | the combined string is the date, "T", the time and ":00" at the stated positions |
| Tools.IsoDateTime | backend/tools.py:92 | the `isoformat()` text is `YYYY-MM-DDTHH:MM:SS`, each field reading back as the value's date, hour, minute and second |
| Tools.BookAppointment | backend/tools.py:75-97 | an empty date or time gives the parse error with no insert; an insert happens iff both normalise and the combination parses; otherwise with both given the reply is "Invalid date/time combination."; the payload holds doctor id, patient name and the isoformat; the store's error or its data is returned |
| Tools.StoredStartIsCombined | backend/tools.py:75-93 | with parsed inputs, the stored `start_datetime` is the ISO date, "T", the `HH:MM` time and ":00" |
| Intent.IntentOf | backend/Nodes/intent.py:3-10 | the label is one of three; "book_appointment" iff a booking word occurs; "recommend_doctor" iff no booking word but a recommendation word; otherwise "general_query" |
| Intent.IntentIgnoresCase | backend/Nodes/intent.py:3 | the label of the lowered message equals the label of the message |
| Intent.BookingWordWins | backend/Nodes/intent.py:5-6 | a fragment with a booking word makes the whole message a booking request, whatever surrounds it |
| Intent.WithIntent | backend/Nodes/intent.py:12 | the intent key holds the new value, the keys gain only "intent", and every other key keeps its value |
| Intent.Classify | backend/Nodes/intent.py:1-13 | the node sets the intent from `user_input` (default "") and changes nothing else |
| Api.RecommendDoctor | api.py:23-29 | one of three fixed texts; cardiologist iff "heart" occurs in any case; general physician iff not "heart" but "fever" or "cold" |
| Api.AdviceIgnoresCase | api.py:25-27 | the advice for the lowered text equals the advice for the text |
| Api.HeartOutweighs | api.py:25-26 | a mention of "heart" anywhere gives the cardiologist advice, whatever surrounds it |
| Nodes.InfoNode | backend/nodes.py:70-77 | an order-preserving subsequence; with a specialty, the entries whose specialty matches ignoring case, each as often as in the input; else with a name, those whose name matches, each as often as in the input; else all |
| Nodes.SpecialtyIgnoresName | backend/nodes.py:70-71 | with a specialty set, the name makes no difference |
| Nodes.InfoNodeAsWritten | backend/nodes.py:66-77 | over the `Tools.DoctorInfo` dict that `get_doctor_info()` returns: TypeError exactly when a specialty or a name is set, and otherwise that dict itself is stored |
| Nodes.SpecialtyRequestRaises | backend/nodes.py:70-71 | a request for a specialty that one doctor on record has raises TypeError as written, and returns that doctor as intended |
| Nodes.NormalizeIntent | backend/nodes.py:34 | the lowered slice of the output left after removing surrounding whitespace; no edge whitespace and no upper-case ASCII letter |
| Nodes.NormalizeIntentIdempotent | backend/nodes.py:34 | normalising a normalised intent changes nothing |
| Nodes.ClassifyIntent | backend/nodes.py:34-35 | only the intent key changes, and it holds the normalised output |
| Graph.RouteIntent | backend/graph.py:41-46 | the label is a key of the routing table; it is the lowered intent when that is one of the three labels, and "general" otherwise |
| Graph.RouteIgnoresCase | backend/graph.py:42 | routing the lowered intent equals routing the intent |
| Graph.MissingIntentIsGeneral | backend/graph.py:42-46 | a missing intent routes to "general" and so to the general chat |
| Graph.RoutesOneToOne | backend/graph.py:50-59 | distinct labels lead to distinct handler nodes, and the handlers are exactly the nodes with an edge to the end |
| Graph.Run | backend/graph.py:38-81 | every run is the classifier, one handler with an edge to the end, then the end; the handler is the one the route table gives for the routed label |
| Graph.ClassifiedIntentRoutes | backend/graph.py:41-46 | a stored intent routes to itself when it is a label, else to "general" |
| Graph.KeywordLabelsRoute | backend/graph.py:43-58 | of the labels of `IntentClassifier` (which the graph does not use) only "book_appointment" is a route label; "recommend_doctor" and "general_query" would reach the general chat |
| Server.LastSix | backend/main.py:33 | `history[-6:]`: exactly the last min(6, n) entries of a history of n, so all of a history of at most six |
| Server.Context | backend/main.py:33 | the lines of the last six entries joined by newlines: empty for an empty history, the one line for a single entry |
| Server.ContextEndsWithLatest | backend/main.py:30-34 | once a message is appended, its `role: message` line ends the context; when the history already held an entry, that entry's line comes just before it, separated by a newline |
| Server.ContextForgetsOlder | backend/main.py:33 | entries older than the last six never reach the context |
| Server.ChatServer.constructor | backend/main.py:9 | the store starts with no sessions |
| Server.ChatServer.Chat | backend/main.py:19-39 | session "default" when none given; an unseen session starts empty; the reply is computed from the context that ends with the user's entry; the session grows by exactly the user and bot entries; no other session changes; the whole history is returned |

## Left out

- Language-model calls are inputs. This covers the extraction in `BookAppointment.__call__` (backend/Nodes/bk_apt.py:18-39) with its JSON scraping and "couldn’t understand" reply, `classify_intent`, `extract_details`, the LLM nodes of backend/nodes.py, `recommend_doctor_with_llm`, and backend/Nodes/general.py.
- Store queries are parameters or input sequences. The `ilike`, `eq` and `text_search` matching, including the hard-coded `'%Sun%'` and `'Sun'`, belongs to the store. Query failures are not modelled.
- `datetime.now`, `ZoneInfo` and the `created_At` timestamp are parameters. `dateparser.parse` and `datetime.fromisoformat` are function parameters.
- Text.Lower: only the ASCII letters A-Z are lowered. Python's `str.lower()` also lowers other letters, so, for instance, "BOO\u212A_APPOINTMENT" (with the Kelvin sign) lowers to "book_appointment" in Python and routes to booking, while here `Graph.RouteIntent` routes it to general. `Intent.IntentOf` and `Nodes.NormalizeIntent` differ the same way on such input. `Text.Strip` does follow Python's full `isspace` set.
- Values of the wrong Python type are not modelled: a non-string date, a JSON `"message": null` (Python stores `None` and the context line reads "user: None"; here a missing or null message is ""), `None` stored explicitly under `patient_id` or `session_id`, or a missing `Name` column on a doctor row. The `d.get(…, 'N/A')` defaults of backend/Nodes/rec_doc.py:110 are not modelled either: doctor rows always carry those columns here.
- JSON numbers are integers. A `datetime` has no microseconds and no UTC offset.
- Calendar.Parse: `%Y`, `%m` and `%d` accept ASCII digits only. Python's `strptime` matches them with a Unicode `\d`, so a date written in other decimal digits (full-width "２０２４/０１/０５", say) parses in Python but gives the format error here.
- Calendar.ParseFormat: `Calendar.Format` always writes the year with four digits, as `isoformat()` and most C libraries' `%Y` do. Where the platform's `strftime` does not pad years before 1000 (glibc under some CPython versions), a date such as 0999/05/05 prints as "999/05/05". Its re-parse then fails, which this model does not capture. That failure would reach the ValueError branch of backend/Nodes/rec_doc.py:67-69, and would raise at backend/Nodes/bk_apt.py:103 and 156.
- Calendar.AddDays: the contract gives the new date's ordinal when a date is returned. It does not characterise exactly when Python overflows; `Calendar.NextDay` does that for one day.
- Booking.Continue: the insert is an output. The store's answer to it is not looked at, as in the source, so the success text follows regardless.
- Nodes.InfoNode: the intended filter over a list of entries; the code as written is `Nodes.InfoNodeAsWritten` (see "## Findings"). The rows of backend/tools.py call the column `specialization`, while `info_node` reads `specialty`; the model uses one field.
- Server.ChatServer.Chat: the graph call is the parameter `invoke`. `backend.graph` defines no `app` (backend/main.py:4), and its state has no `reply` key, so the call as written cannot run.
- The FastAPI, CORS and uvicorn plumbing, and the HTTP helpers of api.py:8-21, are not modelled. Neither are the frontend (frontend/src/App.js), backend/prompt.py, backend/config.py or the `StateGraph` construction beyond its routing data.
- The `print` calls, and the `weekday` values that are computed but never used (backend/Nodes/rec_doc.py:38, 66), are not modelled.
- No concurrency is modelled. Concurrent requests to the same session are not represented.

## Findings

| source | as written | input that shows it | evidently intended | confidence | as-written member | corrected member |
|---|---|---|---|---|---|---|
| backend/Nodes/bk_apt.py:70 | `weekday_map[…]` names a variable defined nowhere, so every request whose date resolves raises NameError before any reply or insert | date "tomorrow" on any day but 9999-12-31 (`Booking.TomorrowResolves`) | drop the lookup (the weekday is recomputed on line 156 before use) and go on to the detail checks and the booking | not executed | Booking.Book | Booking.BookCorrected |
| backend/Nodes/rec_doc.py:83 | every doctor is appended before its slots are checked, and the matching slot row is appended too; formatting `d['Name']` on that row raises KeyError, reported as "Error fetching doctor data: 'Name'" | one doctor with slot 09:00:00-17:00:00, time "10:00" (`Recommend.OneBookableDoctor`) | append the doctor, not the slot, at the first admitting slot, as backend/Nodes/bk_apt.py:119-121 does | not executed | Recommend.Recommend | Recommend.RecommendCorrected |
| backend/nodes.py:66-73 | the comprehensions iterate the dict `{"doctors": …}` that `get_doctor_info()` returns, so each element is the key string "doctors" and `d["specialty"]` (or `d["name"]`) raises TypeError | a specialty "cardiology" with one cardiologist on record (`Nodes.SpecialtyRequestRaises`) | filter the list under the "doctors" key | not executed | Nodes.InfoNodeAsWritten | Nodes.InfoNode |
