# Bots admin configuration validator

Bots is an EDI translator whose routing configuration (channels, partners, routes,
translations, confirm rules, user code lists) is edited through the web framework's admin
screens, defined in `bots/admin.py`. Apart from screen layout, that file holds a small rule
evaluator. This project models that evaluator and proves what it promises:

- four form `clean` steps, each either hands back the cleaned data or raises a validation error:
  - partner: a group is not itself in a group;
  - route: a route that reads from an inbound channel names both editype and messagetype;
  - confirm rule: the reference field that the ruletype names is set;
  - translate: the five-field combination (editype, messagetype, alt, frompartner, topartner) is unique;
- the `activate` admin action, which flips the active flag of every selected record in place;
- the prefix rule of `CcodeAdmin.lookup_allowed`.

Modules follow the classes of the source: `PartnerForm`, `RouteForm`, `ConfirmruleForm` and
`TranslateForm` for the four forms (pure functions), `BotsAdmin` for the action (a method
that updates an array), `CcodeAdmin` for the lookup rule, and `Records` for the shared types.
A raised `ValidationError` is `Rejected(violation)`; a successful clean is `Accepted(data)`.

Field representation. The model of the database tables is not part of this project. Field kinds
are read off `bots/admin.py` itself:
- A field searched through a related record (`frompartner__idpartner`, `idchannel__idchannel`,
  `fromchannel__idchannel`) is a reference. It is modelled as `Option`: absent is SQL NULL, which
  is falsy in Python.
- The text fields the checks read (`fromeditype`, `frommessagetype`, `alt`, `idroute`,
  `messagetype`, `ruletype`) are modelled as `string`. Such a field is falsy exactly when empty.
- The flags `isgroup` and `negativerule` are `bool`.
- The partner's `group` is a many-to-many selection, modelled as a set of partner ids. It is
  falsy exactly when empty.
- The route's sequence number is a `nat`.
- The `active` flag belongs to the stored row (`Row.active`), which is what the `activate`
  action flips. The form records leave it out, because no clean step reads it.

The ruletype stays a string compared with five literals, as in the code, and is not a closed
enumeration. A ruletype outside those five is therefore accepted without any check. A rejection
carries one violation, because each clean step raises one error.

Translate lookup. The code filters the stored translations on the five fields and compares
only with the first hit (`blub[0]`). The stored table is a sequence in the database's order.
`TranslateForm.FirstMatch` gives the position of that first hit. With the invariant the form
keeps (no two rows share a combination), rejection means exactly "another row holds this
combination". When the table already holds duplicates, the verdict depends on row order
(`OutcomeDependsOnOrderWhenKeysRepeat`).

## Model

| member | source | states |
|---|---|---|
| `PartnerForm.Clean` | bots/admin.py:118-122 | rejects (GroupInGroup) exactly when the partner is a group and belongs to some group; accepts exactly the partners satisfying "a group has no groups"; accepted data is returned unchanged |
| `RouteForm.Clean` | bots/admin.py:154-158 | rejects (ChannelNeedsTypes) exactly when fromchannel is set and fromeditype or frommessagetype is empty; always accepts without fromchannel; accepted data is returned unchanged |
| `ConfirmruleForm.Clean` | bots/admin.py:75-92 | rejects exactly when the ruletype is one of route/channel/frompartner/topartner/messagetype and the field that ruletype requires is not set; an unknown ruletype is accepted; the error names the ruletype; accepted data is returned unchanged |
| `ConfirmruleForm.OnlyRequiredReferenceMatters` | bots/admin.py:77-91 | for a known ruletype, two rules whose required reference is equally set get the same verdict, whatever the other four reference fields hold |
| `TranslateForm.FirstMatch` | bots/admin.py:187-192 | returns the position of the first row, in table order, whose five-field key equals the candidate's (None equal to None), and nothing exactly when no row matches |
| `TranslateForm.Clean` | bots/admin.py:185-194 | a new record is rejected exactly when some stored row has its key; an edited record is accepted exactly when no row matches or the first matching row is itself; accepted data is returned unchanged |
| `TranslateForm.RejectsExactlyCollisions` | bots/admin.py:181-193 | while keys are unique, the form rejects exactly when a row other than the record itself (any row, for a new record) holds the key |
| `TranslateForm.CreateKeepsKeysUnique` | bots/admin.py:185-193 | adding an accepted new translation to a table with unique keys keeps the keys unique |
| `TranslateForm.EditKeepsKeysUnique` | bots/admin.py:185-193 | saving an accepted edit into a table with unique keys and primary keys keeps the keys unique |
| `TranslateForm.OutcomeDependsOnOrderWhenKeysRepeat` | bots/admin.py:192-193 | with two stored rows sharing a key, editing the first is accepted while the same edit with the rows in the other order is rejected |
| `BotsAdmin.Activate` | bots/admin.py:17-21 | after the action the table equals `Toggled` of the old table over the queryset's positions |
| `BotsAdmin.ToggledChangesOnlySelectedFlags` | bots/admin.py:19-21 | the action negates the active flag of each selected row; primary keys, all other fields and unselected rows are unchanged |
| `BotsAdmin.ToggledTwice` | bots/admin.py:17-21 | running the action twice on the same selection restores the original table |
| `CcodeAdmin.LookupAllowed` | bots/admin.py:37-40 | a lookup starting with "ccodeid" is allowed; any other lookup gets the framework's own answer |

## Left out

- Screen configuration (`list_display`, `list_filter`, `search_fields`, `ordering`, `fieldsets`, `filter_horizontal`, `inlines`, `MailInline`, `save_as`, `actions`) and every `admin.site.register`/`unregister` call: presentation with no behaviour to prove.
- `list_per_page` (bots/admin.py:15): read from the `botsglobal.ini` configuration file, global I/O.
- Message texts passed through `ugettext`: the error is a `Violation` value, not a localized string.
- `super().clean()` and the field validation it stands for. The model assumes every field the check reads is present in the cleaned data; when a field fails its own validation, the Python code would raise a KeyError instead.
- The database: `objects.filter` becomes a search of a sequence of rows in the database's (unspecified) order; `obj.save()` becomes an update of an array element, or `Edited` for the uniqueness lemmas.
- `TranslateForm.KeyOf`: key equality is exact string equality. The filter at bots/admin.py:187-191 compares inside the database, under its collation, which is not modelled. A collation that ignores case or trailing spaces (MySQL's default) makes "ORDERS" and "orders" collide, so the form rejects where the model accepts.
- `BotsAdmin.Activate`: the queryset is given as distinct positions in one table, since a queryset never holds a row twice; row identity by object reference is not modelled.
- `CcodeAdmin.LookupAllowed`: the superclass's `lookup_allowed` (bots/admin.py:40) is framework code; its answer is a parameter and left unspecified.
- The reconfiguration of the user screen (bots/admin.py:223-225): framework wiring.
