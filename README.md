# alexa-vera-bridge: the message codec and the request dispatcher, in Dafny

This project models two sequential pieces of the Alexa–Vera bridge and proves
properties of them.

**The AVBMessage codec (`avbmsg.py`).** A message is a record of six fields,
`length`, `version`, `encoding`, `data`, `psk` and `iv`. On the wire it is a
4-digit zero-padded length, a 2-digit version and a 2-digit encoding. Then
comes the IV (24 base64 characters, AES-CBC only), then the body. `set_data`
stores the JSON text. Under AES-CBC it first pads the text with `*` to a whole
number of 16-byte blocks, encrypts it and base64-encodes it. It then
recomputes `length`. `get_data` undoes this and strips every trailing `*`.
`dumps` writes the header and body; `loads` parses them back with a running
index.

- `avbmsg.dfy`, module `AvbMsg`: the value `Fields` and the specification
  functions `Constructed`, `AfterSetPsk`, `AfterSetData`, `BodyText`,
  `Serialize` and `AfterLoads`, with the lemmas that relate them.
- Class `AVBMessage` holds the six fields. It performs `__init__` (`Create`),
  `set_psk`, `set_data` and `loads` step by step and is proved to agree with
  those functions.
- `get_psk`, `len`, `get_data` and `dumps` are the class functions `GetPsk`,
  `Len`, `GetData` and `Dumps`.
- `padding.dfy`: the `*` padding. `decimal.dfy`: zero-padded decimal fields,
  `int()` and `str()`.
- `crypto.dfy`: AES-256-CBC and base64 (section 4 of RFC 4648) are not
  modelled. The codec receives them as a record of functions. `Sound` names
  the only facts the proofs use about them.

**The dispatcher and connection loop (`server/server.py`).** `handle_msg`
takes one decoded request and does four things. It maps the request to the
query parameters for the Vera hub. It classifies failures as status 1 (JSON
null, unknown action) or status 2 (hub did not answer 200). For `get`, it
picks `Status` and `ConfiguredName` out of the device list. It returns whether
to close the connection. The loop in `main` calls it once per `read()` while
it returns False.

- `server.dfy`, module `Server`: `Dispatch` is the decision as a function.
  `HandleMsg` is the same procedure as a method; it uses the nested scan
  `ExtractDeviceState`.
- `Session` is the connection loop as a function; `Serve` is the loop itself.
- The socket becomes a sequence of reads and a sequence of sent responses.
- The HTTP call becomes the hub's `Reply`, supplied with each read.
- `server.py` treats each `read()` as one whole JSON text; it does not use
  `AVBMessage` and has no length-prefixed framing.

Behaviour of the source worth noting:

- Text that `json.loads` rejects is not answered with status 1. `json.loads`
  raises, nothing catches it, and no response is sent (`Raised(ValueError)`).
  The same happens on the read after the peer closes, which returns `''`.
  Only JSON `null` gets "bad message format".
- A network failure of `requests.get` is not caught. Only a non-200 status
  code gives status 2.
- `loads` validates neither version nor encoding. It does not compare the
  declared length with the real one. It keeps the old IV for a non-AES
  message.
- `__init__` calls `set_data` before it assigns `encoding` and `psk`. So a body
  given to the constructor is stored as plaintext with an empty IV, even when
  AES-CBC is requested.
- `set_data` assigns the new body, IV and length before it raises "Message is
  too long". `loads` stores each header field as soon as it is parsed. The
  model keeps these partial updates (`Step`).
- A `get` for which no device supplies both `Status` and `ConfiguredName`
  leaves a variable unbound at `server/server.py:95`. This raises NameError
  before anything is sent. The model makes this the explicit outcome
  `Raised(NameError)`.
- A request without `close_connection` raises KeyError after its response is
  sent.

## Model

| member | source | states |
|---|---|---|
| `Decimal.ZeroPadWidth` | avbmsg.py:129-131 | a number below 10^w is written in exactly w characters, all digits |
| `Decimal.ParseZeroPad` | avbmsg.py:142-146 | int() of a zero-padded field returns the number that was written, for any width |
| `Decimal.ParseIntToString` | server/server.py:54 | int(str(i)) == i for every integer, so the id and power in a query can be read back |
| `Padding.PadLength` | avbmsg.py:82 | the pad is 1 to 16 characters, completes a whole block, and is a full block exactly when the body is already a multiple of 16 |
| `Padding.Pad` | avbmsg.py:82-83 | the padded text is a whole number of blocks, begins with the body and is `*` after it |
| `Padding.RStrip` | avbmsg.py:106 | rstrip('*') returns a prefix that does not end in `*`, and everything it removed is `*` |
| `Padding.RStripStars` | avbmsg.py:106 | appending `*` characters does not change what rstrip returns |
| `Padding.StripPad` | avbmsg.py:82-106 | stripping the padded body gives rstrip of the body, which is the body itself exactly when it does not end in `*` |
| `AvbMsg.AfterSetPsk` | avbmsg.py:53-62 | set_psk fails exactly under plaintext encoding, or under AES-CBC with a key that is not 44 characters; success changes only psk, and only under AES-CBC |
| `AvbMsg.AfterSetData` | avbmsg.py:70-92 | whenever the key decodes to a valid AES key, or the encoding is not AES-CBC, the length is recomputed as 8 + len(iv) + len(data) and the only possible error is "too long", raised exactly when that length exceeds 9999; under AES-CBC a psk that is not base64 raises the base64 error and a key of the wrong size raises the AES key error; version, encoding and psk are untouched; plaintext stores the JSON text with an empty IV |
| `AvbMsg.BodyText` | avbmsg.py:95-110 | get_data gives None exactly for an empty body, the body itself for plaintext, and decrypted text not ending in `*` under AES-CBC |
| `AvbMsg.AfterLoads` | avbmsg.py:135-155 | loads raises on fewer than 8 characters and on a non-numeric header; on success the three fields are the numbers in the header, iv + data is the rest of the message (iv at most 24 characters, AES-CBC only), psk and a non-AES iv are kept |
| `AvbMsg.Constructed` | avbmsg.py:29-50 | __init__ succeeds exactly when the body fits, the version is 1, the encoding is 1 or 2, and a key is only given with AES-CBC and 44 characters; the body is stored as plaintext with an empty IV |
| `AvbMsg.Serialize` | avbmsg.py:128-132 | dumps ends with the IV and then the body, after at least 8 header characters; its exact length and its inverse are stated by `SerializeLength` and `LoadsSerialize` |
| `AvbMsg.SerializeLength` | avbmsg.py:128-132 | dumps is 8 + len(iv) + len(data) characters when the fields fit their widths, equal to the length field when that is consistent |
| `AvbMsg.LoadsSerialize` | avbmsg.py:128-155 | loads(dumps()) restores length, version, encoding, iv and data when the fields fit their widths, an AES IV has 24 characters and a plaintext message has none |
| `AvbMsg.SetDataWireRoundTrip` | avbmsg.py:70-155 | after a successful set_data the dump is exactly `length` characters and loading it into the same object changes nothing |
| `AvbMsg.SetDataThenBody` | avbmsg.py:70-110 | get_data after set_data returns the JSON text: exactly in plaintext, rstripped of `*` under AES-CBC |
| `AvbMsg.AVBMessage.constructor` | avbmsg.py:31-36 | the defaults: length 8, version 1, plaintext, empty body, key and IV |
| `AvbMsg.AVBMessage.Create` | avbmsg.py:29-50 | the object built step by step is a fresh object whose fields are `Constructed`, or the exception `Constructed` names |
| `AvbMsg.AVBMessage.SetPsk` | avbmsg.py:53-62 | the new fields are those of `AfterSetPsk`; a rejected call changes nothing |
| `AvbMsg.AVBMessage.SetData` | avbmsg.py:70-92 | the new fields and the exception are those of `AfterSetData` |
| `AvbMsg.AVBMessage.GetPsk` | avbmsg.py:65-66 | get_psk reads the psk field; it has no contract of its own, and what the field holds is stated by `AfterSetPsk` |
| `AvbMsg.AVBMessage.GetData` | avbmsg.py:95-97 | returns None exactly when the body is empty |
| `AvbMsg.AVBMessage.Len` | avbmsg.py:113-114 | len reads the length field; it has no contract of its own, and `Dumps` states that it equals the dump's length when the length field is consistent |
| `AvbMsg.AVBMessage.Dumps` | avbmsg.py:128-132 | the dump has 8 + len(iv) + len(data) characters, which is Len() when the length field is consistent |
| `AvbMsg.AVBMessage.Loads` | avbmsg.py:135-155 | parsing with a running index leaves the fields and the exception of `AfterLoads` |
| `Server.MapAction` | server/server.py:50-72 | run gives action RunScene with SceneNum reading back as the id; set gives SetTarget with DeviceNum reading back as the id and newTargetValue as the power; get gives exactly {'id': 'status'}; any other type is unknown |
| `Server.LastValueIsLastHit` | server/server.py:88-95 | the extracted value is unbound exactly when no device with the id has that state, and otherwise is the value of the last such state in device and state order |
| `Server.ExtractDeviceState` | server/server.py:88-94 | the nested loop leaves in its two variables the last Status and ConfiguredName values of the devices with the id |
| `Server.Dispatch` | server/server.py:35-102 | at most one response is sent; the hub is queried exactly when the action maps, with those parameters; an error response closes the connection and carries no data; null gets exactly the 'bad message format' response, an unknown action exactly 'invalid action', a non-200 hub reply exactly 'error contacting Vera', each followed by close; text that is not JSON (including the empty read after the peer closes) raises ValueError, a set without power raises KeyError, and a get whose device lacks either state variable raises NameError after the hub was queried; none of these three sends anything, and the first two do not query the hub |
| `Server.DispatchClassifies` | server/server.py:41-102 | status 1 exactly for null or an unknown action, status 2 exactly for a valid request the hub does not answer with 200, status 0 exactly when the request succeeds; nothing is sent exactly for unparseable text, a set without a power, or a get whose device is not found |
| `Server.DispatchSuccess` | server/server.py:84-102 | a success sends one status-0 response without error text, with the device's status and name for get and no data otherwise, and returns the close_connection flag |
| `Server.HandleMsg` | server/server.py:35-102 | the procedure with its loop produces exactly the exchange `Dispatch` describes |
| `Server.Session` | server/server.py:151-158 | the loop makes between 1 and one-more-than-the-reads calls, and sends at most one response and one hub query per call; which calls and responses is stated by `SessionStopsAtFirstClose` and `ErrorEndsSession` |
| `Server.SessionCalls` | server/server.py:151-158 | every call before the last returned False; the last call did not, and the session ends Closed exactly when it returned True |
| `Server.SessionSent` | server/server.py:151-158 | the responses sent are those of the calls made, in order |
| `Server.SessionQueries` | server/server.py:151-158 | the hub queries are those of the calls made, in order |
| `Server.SessionEarlierCalls` | server/server.py:151-158 | every call before the last returned False |
| `Server.SessionLastCall` | server/server.py:151-158 | the last call did not return False, and the session ends Closed exactly when it returned True |
| `Server.SessionStopsAtFirstClose` | server/server.py:151-158 | handle_msg runs once per read and the loop stops after the first call that does not return False; the responses are those of the calls made, in order |
| `Server.ErrorEndsSession` | server/server.py:35-158 | an error response is the last response of its connection, and the connection then closes |
| `Server.Serve` | server/server.py:151-161 | the loop produces exactly the history `Session` describes |

## Left out

- AES-256-CBC, random IV generation and base64 are foreign calls. They are parameters. The random IV is the 16-character argument `rand`; IV freshness is not modelled.
- `Crypto.Sound` assumes base64 and CBC facts that the model does not prove: decode inverts encode, base64 text is 4·ceil(n/3) characters long, and CBC decryption inverts encryption on whole blocks.
- `json.dumps` and `json.loads` are not modelled. `set_data` takes the JSON text, and `get_data` returns the text it would parse. A JSON text never ends in `*`, so `SetDataThenBody` gives the exact body for every real message.
- Python `int()` also accepts a sign and surrounding whitespace. The model reads a header field only as unsigned digits, so such a field raises here but not in the source.
- `AVBMessage.pprint` is console output only.
- The `print` calls in `handle_msg` (server/server.py:38, 42, 69, 78, 99) write diagnostics to the console. They are not modelled.
- The header values are Python integers. The model keeps them as natural numbers. No width limit is applied beyond the "too long" check, and a field wider than its width is written in full.
- Socket and TLS setup, `bind`, `listen` and `accept` are not modelled. Neither is the outer accept loop over many connections, nor closing the socket.
- `requests.get` is not modelled: the hub's reply is an input. The URL it is sent to is not modelled; only the query parameters are.
- A transport failure of `requests.get`, a reply that is not JSON and a device entry lacking keys are not modelled. Each raises in the source.
- The request is a decoded record with an integer id, an action type, an optional power and an optional boolean `close_connection`. A request that lacks `id` or `action.type`, or has values of other JSON types, is not modelled.
- `lambda/client.py`, `server/test_client.py` and `security/security_test.py` are voice-skill glue and manual demo scripts. They are not part of this model.
